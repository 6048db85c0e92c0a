/** A document is checked without an error exactly when it conforms and is finite. */
module ConformingDocuments {
  import opened Wrappers
  import opened Diagnostics
  import opened DocumentGraph
  import opened DocumentRules
  import opened DocumentWalk
  import opened CleanDocuments
  import opened Conformity

  // ------------------------------------------------------------ lists of findings

  lemma ErrorsSpoil(d: Diagnostic, findings: seq<Diagnostic>)
    requires d in findings && d.reason.Severity() == Error
    ensures !NoErrors(findings)
  {
  }

  lemma BothClean(some: seq<Diagnostic>, more: seq<Diagnostic>)
    ensures NoErrors(some + more) <==> NoErrors(some) && NoErrors(more)
  {
    assert forall d <- some :: d in some + more;
    assert forall d <- more :: d in some + more;
  }

  lemma {:induction false} ItemsClean(items: seq<Value>, from: nat, check: (nat, Value) -> seq<Diagnostic>)
    ensures NoErrors(OverItems(items, from, check)) <==>
              forall i: nat | from <= i < |items| :: NoErrors(check(i, items[i]))
    decreases |items| - from
  {
    hide NoErrors;
    if from < |items| {
      ItemsClean(items, from + 1, check);
      BothClean(check(from, items[from]), OverItems(items, from + 1, check));
    } else {
      assert NoErrors([]) by { NothingFound(); }
    }
  }

  lemma NothingFound()
    ensures NoErrors([])
  {
  }

  lemma {:induction false} KeysClean(keys: seq<string>, check: string -> seq<Diagnostic>)
    ensures NoErrors(OverKeys(keys, check)) <==> forall key <- keys :: NoErrors(check(key))
  {
    hide NoErrors;
    if keys != [] {
      KeysClean(keys[1..], check);
      BothClean(check(keys[0]), OverKeys(keys[1..], check));
      assert forall key :: key in keys <==> key == keys[0] || key in keys[1..];
    } else {
      NothingFound();
    }
  }

  lemma {:induction false} FirstAlienIsFirst(keys: seq<string>, fields: map<string, Value>)
    ensures FirstAlien(keys, fields).None? <==> forall key <- keys | key in fields :: !fields[key].Alien?
  {
    if keys != [] { FirstAlienIsFirst(keys[1..], fields); }
  }

  lemma FoundIsClean(problem: Option<Problem>, path: FieldPath)
    ensures NoErrors(Found(problem, path)) <==> problem.None?
  {
    if problem.Some? { ErrorsSpoil(Found(problem, path)[0], Found(problem, path)); }
  }

  lemma OneFinding(d: Diagnostic)
    ensures NoErrors([d]) <==> d.reason.Severity() == Warning
  {
    assert d in [d];
  }

  // ------------------------------------------------------------ leaves

  lemma TextFieldsAreClean(heap: Heap, voc: Vocabulary, check: Check, v: Value, key: string, path: FieldPath)
    requires check.Text? && IsRecord(heap, v) && key in heap[v.id].fields
    ensures NoErrors(CheckTextField(voc, check, heap[v.id], key, path)) <==>
              var field := heap[v.id].fields[key];
              && (key == "@value" || key == "@language") && field.Str?
              && Passes(voc, if key == "@value" then check else LanguageTag, field)
  {
    var field := heap[v.id].fields[key];
    FoundIsClean(voc.content(check, field), path);
    FoundIsClean(voc.content(LanguageTag, field), path);
    OneFinding(Diagnostic(InvalidValueShape, path));
    OneFinding(Diagnostic(UnsupportedValueForm, path));
    hide NoErrors;
  }

  lemma TextRecordsAreClean(heap: Heap, voc: Vocabulary, check: Check, v: Value, path: FieldPath)
    requires Closed(heap) && check.Text? && IsRecord(heap, v)
    ensures NoErrors(CheckText(heap, voc, check, v, path)) <==> IsTextRecord(heap, voc, check, v)
  {
    hide NoErrors, CheckTextField, Passes;
    var node := heap[v.id];
    assert WellFormed(heap, node);
    hide Closed;
    FirstAlienIsFirst(node.keys, node.fields);
    var checkField := (key: string) => CheckTextField(voc, check, node, key, At(path, Key(key)));
    KeysClean(node.keys, checkField);
    forall key <- node.fields
      ensures NoErrors(checkField(key)) <==>
                && (key == "@value" || key == "@language") && node.fields[key].Str?
                && Passes(voc, if key == "@value" then check else LanguageTag, node.fields[key])
    {
      TextFieldsAreClean(heap, voc, check, v, key, At(path, Key(key)));
    }
    var alien := FirstAlien(node.keys, node.fields);
    if alien.Some? { OneFinding(Diagnostic(NonJsonValue, At(path, Key(alien.value)))); }
    OneFinding(Diagnostic(UnsupportedValueForm, path));
  }

  lemma ScalarsAreClean(heap: Heap, voc: Vocabulary, check: Check, v: Value, path: FieldPath)
    requires Closed(heap)
    ensures NoErrors(CheckScalar(heap, voc, check, v, path)) <==> IsScalar(heap, voc, check, v)
  {
    hide NoErrors, IsTextRecord;
    NothingFound();
    FoundIsClean(voc.content(check, v), path);
    OneFinding(Diagnostic(UnsupportedValueForm, path));
    OneFinding(Diagnostic(InvalidValueShape, path));
    if check.Text? && IsRecord(heap, v) {
      TextRecordsAreClean(heap, voc, check, v, path);
      hide CheckText;
    } else if check.Text? && v.Ref? {
      NoTextRecord(heap, voc, check, v);
    }
  }

  lemma NoTextRecord(heap: Heap, voc: Vocabulary, check: Check, v: Value)
    requires !IsRecord(heap, v)
    ensures !IsTextRecord(heap, voc, check, v)
  {
  }

  ghost predicate IsEntry(heap: Heap, voc: Vocabulary, check: Check, item: Value) {
    item == Null || (!item.Alien? && IsScalar(heap, voc, check, item))
  }

  lemma EntriesAreClean(heap: Heap, voc: Vocabulary, check: Check, v: Value, path: FieldPath)
    requires Closed(heap)
    ensures NoErrors(CheckEntry(heap, voc, check, v, path)) <==> IsEntry(heap, voc, check, v)
  {
    hide NoErrors, CheckScalar;
    NothingFound();
    OneFinding(Diagnostic(NonJsonValue, path));
    OneFinding(Diagnostic(UnsupportedValueForm, path));
    ScalarsAreClean(heap, voc, check, v, path);
  }

  ghost predicate AllNull(items: seq<Value>) {
    forall item <- items :: item == Null
  }

  lemma NullsOneByOne(items: seq<Value>)
    requires items != []
    ensures AllNull(items) <==> items[0] == Null && AllNull(items[1..])
    ensures AtMostOne(items) <==> if items[0] == Null then AtMostOne(items[1..]) else AllNull(items[1..])
  {
    var first, rest := items[0], items[1..];
    assert forall i | 0 <= i < |rest| :: rest[i] == items[i + 1];
    assert first in items;
    if AllNull(items) { forall item <- rest ensures item == Null { assert item in items; } }
    if first == Null && AllNull(rest) {
      forall item <- items ensures item == Null { assert items == [first] + rest; }
    }
    if AtMostOne(items) {
      forall i | 0 <= i < |rest| && first != Null ensures rest[i] == Null { assert items[i + 1] == rest[i]; }
    }
    if first != Null && AllNull(rest) {
      forall j | 0 < j < |items| ensures items[j] == Null { assert rest[j - 1] in rest; }
    }
  }

  lemma {:induction false} NonNullCounts(items: seq<Value>)
    ensures NonNull(items) == 0 <==> AllNull(items)
    ensures NonNull(items) <= 1 <==> AtMostOne(items)
  {
    hide AllNull, AtMostOne;
    if items != [] {
      NonNullCounts(items[1..]);
      NullsOneByOne(items);
    } else {
      NoItems();
    }
  }

  lemma NoItems()
    ensures AllNull([]) && AtMostOne([])
  {
  }

  lemma ScalarListsAreClean(heap: Heap, voc: Vocabulary, check: Check, items: seq<Value>, path: FieldPath)
    requires Closed(heap)
    ensures
      NoErrors(OverItems(items, 0,
                         (i: nat, item: Value) => CheckEntry(heap, voc, check, item, At(path, Index(i))))) <==>
        forall item <- items :: IsEntry(heap, voc, check, item)
  {
    hide NoErrors, CheckEntry, IsEntry, Closed;
    var checkItem := (i: nat, item: Value) => CheckEntry(heap, voc, check, item, At(path, Index(i)));
    ItemsClean(items, 0, checkItem);
    forall i: nat | i < |items| ensures NoErrors(checkItem(i, items[i])) <==> IsEntry(heap, voc, check, items[i]) {
      EntriesAreClean(heap, voc, check, items[i], At(path, Index(i)));
    }
    if forall item <- items :: IsEntry(heap, voc, check, item) {
      forall i: nat | i < |items| ensures IsEntry(heap, voc, check, items[i]) { assert items[i] in items; }
    }
  }

  lemma SinglesAreClean(heap: Heap, voc: Vocabulary, check: Check, v: Value, path: FieldPath)
    requires Closed(heap)
    ensures NoErrors(CheckSingle(heap, voc, check, v, path)) <==> IsLeaf(heap, voc, Single(check), v)
    ensures NoErrors(CheckMany(heap, voc, check, v, path)) <==> IsLeaf(heap, voc, Many(check), v)
  {
    hide NoErrors, CheckScalar, CheckEntry, IsScalar, Closed, AtMostOne, NonNull;
    if IsList(heap, v) {
      var items := heap[v.id].items;
      ScalarListsAreClean(heap, voc, check, items, path);
      NonNullCounts(items);
      OneFinding(Diagnostic(UnsupportedValueForm, path));
      OneFinding(Diagnostic(InvalidMultiplicity, path));
      NothingFound();
      var found :=
        OverItems(items, 0, (i: nat, item: Value) => CheckEntry(heap, voc, check, item, At(path, Index(i))));
      BothClean(if CountValues(heap, v) > 1 then [Diagnostic(InvalidMultiplicity, path)] else [], found);
    } else {
      ScalarsAreClean(heap, voc, check, v, path);
    }
  }

  lemma TranslationsAreClean(voc: Vocabulary, plain: bool, node: Node, key: string, path: FieldPath)
    requires node.Record? && key in node.fields
    ensures NoErrors(CheckTranslation(voc, plain, node, key, path)) <==>
              && Passes(voc, LanguageTag, Str(key))
              && var text := node.fields[key];
                 text == Null || (text.Str? && Passes(voc, Text(plain), text))
  {
    var text := node.fields[key];
    FoundIsClean(voc.content(LanguageTag, Str(key)), path);
    FoundIsClean(voc.content(Text(plain), text), path);
    OneFinding(Diagnostic(InvalidValueShape, path));
    NothingFound();
    hide NoErrors, Found;
    BothClean(Found(voc.content(LanguageTag, Str(key)), path),
              if text.Null? then [] else if text.Str? then Found(voc.content(Text(plain), text), path)
              else [Diagnostic(InvalidValueShape, path)]);
  }

  lemma LanguageMapsAreClean(heap: Heap, voc: Vocabulary, plain: bool, v: Value, path: FieldPath)
    requires Closed(heap)
    ensures NoErrors(CheckLanguageMap(heap, voc, plain, v, path)) <==> IsLanguageMap(heap, voc, plain, v)
  {
    hide NoErrors, CheckTranslation, Passes;
    NothingFound();
    OneFinding(Diagnostic(InvalidValueShape, path));
    if IsRecord(heap, v) {
      var node := heap[v.id];
      assert WellFormed(heap, node);
      hide Closed;
      FirstAlienIsFirst(node.keys, node.fields);
      var checkKey := (key: string) => CheckTranslation(voc, plain, node, key, At(path, Key(key)));
      KeysClean(node.keys, checkKey);
      forall key <- node.fields
        ensures NoErrors(checkKey(key)) <==>
                  && Passes(voc, LanguageTag, Str(key))
                  && var text := node.fields[key];
                     text == Null || (text.Str? && Passes(voc, Text(plain), text))
      {
        TranslationsAreClean(voc, plain, node, key, At(path, Key(key)));
      }
      var alien := FirstAlien(node.keys, node.fields);
      if alien.Some? { OneFinding(Diagnostic(NonJsonValue, At(path, Key(alien.value)))); }
    }
  }

  lemma NoObjectsAreClean(heap: Heap, voc: Vocabulary, v: Value, path: FieldPath)
    ensures NoErrors(CheckNoObject(heap, v, path)) <==> IsLeaf(heap, voc, NoObject, v)
  {
    NothingFound();
    OneFinding(Diagnostic(PropertyNotApplicable, path));
    OneFinding(Diagnostic(UnsupportedValueForm, path));
    hide NoErrors;
    if IsList(heap, v) {
      var items := heap[v.id].items;
      var checkItem := (i: nat, item: Value) =>
        if item.Null? then []
        else if item.Alien? then [Diagnostic(NonJsonValue, At(path, Index(i)))]
        else if IsList(heap, item) then [Diagnostic(UnsupportedValueForm, At(path, Index(i)))]
        else [Diagnostic(PropertyNotApplicable, At(path, Index(i)))];
      ItemsClean(items, 0, checkItem);
      forall i: nat | i < |items| ensures NoErrors(checkItem(i, items[i])) <==> items[i] == Null {
        OneFinding(Diagnostic(NonJsonValue, At(path, Index(i))));
        OneFinding(Diagnostic(UnsupportedValueForm, At(path, Index(i))));
        OneFinding(Diagnostic(PropertyNotApplicable, At(path, Index(i))));
      }
      if forall item <- items :: item == Null {
        forall i: nat | i < |items| ensures items[i] == Null { assert items[i] in items; }
      }
    }
  }

  /** The leaf checks are silent exactly on what the leaf rules allow. */
  lemma LeavesAreClean(heap: Heap, voc: Vocabulary, rule: Rule, v: Value, path: FieldPath)
    requires Closed(heap) && !rule.References?
    ensures NoErrors(CheckLeaf(heap, voc, rule, v, path)) <==> IsLeaf(heap, voc, rule, v)
  {
    hide NoErrors, CheckSingle, CheckMany, CheckLanguageMap, CheckNoObject, IsLanguageMap, Closed, Found;
    NothingFound();
    match rule
    case Single(check) => SinglesAreClean(heap, voc, check, v, path);
    case Many(check) => SinglesAreClean(heap, voc, check, v, path);
    case LanguageMap(plain) => LanguageMapsAreClean(heap, voc, plain, v, path);
    case Identifier =>
      FoundIsClean(voc.content(Reference, v), path);
      OneFinding(Diagnostic(InvalidValueShape, path));
    case NoObject => NoObjectsAreClean(heap, voc, v, path);
    case Unchecked => OneFinding(Diagnostic(UnsupportedProperty, path));
  }

  // ------------------------------------------------------------ events

  lemma ReportsAreClean(findings: seq<Diagnostic>)
    ensures Clean(Reports(findings)) <==> NoErrors(findings)
  {
    if Clean(Reports(findings)) { CleanReports(findings); }
    if NoErrors(findings) {
      forall e <- Reports(findings) | e.Reported? ensures e.d.reason.Severity() == Warning {
        var i :| 0 <= i < |findings| && Reports(findings)[i] == e;
        assert findings[i] in findings;
      }
    }
  }

  lemma EventsAreClean(some: seq<Event>, more: seq<Event>)
    ensures Clean(some + more) <==> Clean(some) && Clean(more)
  {
    assert forall e <- some :: e in some + more;
    assert forall e <- more :: e in some + more;
  }

  lemma OneReport(d: Diagnostic)
    ensures Clean([Reported(d)]) <==> d.reason.Severity() == Warning
    ensures Clean(Reports([d])) <==> d.reason.Severity() == Warning
    ensures Clean([])
  {
    assert Reported(d) in [Reported(d)];
    ReportsAreClean([d]);
    OneFinding(d);
  }

  // ------------------------------------------------------------ one task

  /** What a task checks conforms. */
  ghost predicate Holds(heap: Heap, voc: Vocabulary, t: Task) {
    match t
    case Extension(v, path, keywords) => IsData(heap, v, 64 - |path|, keywords)
    case Document(v, path, inherited, range, decoder) =>
      Conforms(heap, voc, v, 64 - |path|, inherited, range, decoder)
    case Property(doc, path, context, kind, source) =>
      doc in heap && heap[doc].Record? && source in heap[doc].fields ==>
        IsField(heap, voc, heap[doc].fields, source, 63 - |path|, context, kind)
    case Embedded(v, path, context, range, decoder) =>
      IsReference(heap, voc, v, 64 - |path|, context, range, decoder)
    case Finding(d) => d.reason.Severity() == Warning
  }

  ghost predicate VisitHolds(heap: Heap, voc: Vocabulary, visit: Visit) {
    Clean(visit.events) && forall child <- visit.children :: Holds(heap, voc, child)
  }

  lemma TypeShapesAreClean(heap: Heap, items: seq<Value>, path: FieldPath)
    ensures
      NoErrors(OverItems(items, 0, (i: nat, item: Value) =>
        if item.Str? then [] else [Diagnostic(InvalidValueShape, path + [Key("@type"), Index(i)])])) <==>
        forall item <- items :: item.Str?
  {
    hide NoErrors;
    NothingFound();
    var checkItem := (i: nat, item: Value) =>
      if item.Str? then [] else [Diagnostic(InvalidValueShape, path + [Key("@type"), Index(i)])];
    ItemsClean(items, 0, checkItem);
    forall i: nat | i < |items| ensures NoErrors(checkItem(i, items[i])) <==> items[i].Str? {
      OneFinding(Diagnostic(InvalidValueShape, path + [Key("@type"), Index(i)]));
    }
    if forall item <- items :: item.Str? {
      forall i: nat | i < |items| ensures items[i].Str? { assert items[i] in items; }
    }
  }

  lemma KeywordsAreClean(heap: Heap, fields: map<string, Value>, path: FieldPath)
    ensures NoErrors(CheckKeywords(heap, fields, path)) <==> HasKeywordShapes(heap, fields)
  {
    hide NoErrors;
    NothingFound();
    OneFinding(Diagnostic(InvalidValueShape, At(path, Key("@id"))));
    OneFinding(Diagnostic(InvalidValueShape, At(path, Key("@type"))));
    OneFinding(Diagnostic(InvalidValueShape, At(path, Key("@language"))));
    OneFinding(Diagnostic(InvalidValueShape, At(path, Key("@value"))));
    var ids :=
      if "@id" in fields && !fields["@id"].Str? then [Diagnostic(InvalidValueShape, At(path, Key("@id")))] else [];
    var types :=
      if "@type" !in fields || fields["@type"].Str? then []
      else if IsList(heap, fields["@type"]) then
        OverItems(heap[fields["@type"].id].items, 0, (i: nat, item: Value) =>
          if item.Str? then [] else [Diagnostic(InvalidValueShape, path + [Key("@type"), Index(i)])])
      else [Diagnostic(InvalidValueShape, At(path, Key("@type")))];
    var tags :=
      if "@value" in fields && "@language" in fields && !fields["@language"].Null? && !fields["@language"].Str?
      then [Diagnostic(InvalidValueShape, At(path, Key("@language")))] else [];
    var texts :=
      if "@value" in fields && "@language" in fields && !fields["@language"].Null?
         && !fields["@value"].Null? && !fields["@value"].Str?
      then [Diagnostic(InvalidValueShape, At(path, Key("@value")))] else [];
    assert CheckKeywords(heap, fields, path) == ids + types + (tags + texts);
    BothClean(ids, types);
    BothClean(tags, texts);
    BothClean(ids + types, tags + texts);
    if "@type" in fields && IsList(heap, fields["@type"]) {
      TypeShapesAreClean(heap, heap[fields["@type"].id].items, path);
    }
  }

  /** Looking into plain data: silent, with conforming children, exactly on data. */
  lemma ExtensionsStep(heap: Heap, voc: Vocabulary, v: Value, path: FieldPath, keywords: bool, ancestors: set<nat>)
    requires Closed(heap) && Present(heap, v) && (v.Ref? ==> v.id !in ancestors)
    ensures VisitHolds(heap, voc, VisitExtension(heap, v, path, keywords, ancestors)) <==>
              IsData(heap, v, 64 - |path|, keywords)
  {
    hide Clean, NoErrors, CheckKeywords, HasKeywordShapes, IsLiteral, IsJsonLiteral;
    OneReport(Diagnostic(ProcessingLimitExceeded, path));
    OneReport(Diagnostic(NonJsonValue, path));
    if |path| <= MAXIMUM_PATH_DEPTH && v.Ref? {
      match heap[v.id]
      case List(items) => ExtensionItems(heap, voc, v, path, keywords, ancestors);
      case Record(keys, fields) => ExtensionFields(heap, voc, v, path, keywords, ancestors);
    }
  }

  lemma ExtensionItems(heap: Heap, voc: Vocabulary, v: Value, path: FieldPath, keywords: bool, ancestors: set<nat>)
    requires |path| <= MAXIMUM_PATH_DEPTH && IsList(heap, v) && v.id !in ancestors
    ensures VisitHolds(heap, voc, VisitExtension(heap, v, path, keywords, ancestors)) <==>
              IsData(heap, v, 64 - |path|, keywords)
  {
    var items := heap[v.id].items;
    var visit := VisitExtension(heap, v, path, keywords, ancestors);
    forall i | 0 <= i < |items|
      ensures Holds(heap, voc, visit.children[i]) <==> IsData(heap, items[i], 63 - |path|, keywords)
    {
    }
    if forall child <- visit.children :: Holds(heap, voc, child) {
      forall item <- items ensures IsData(heap, item, 63 - |path|, keywords) {
        var i :| 0 <= i < |items| && items[i] == item;
        assert visit.children[i] in visit.children;
      }
    }
    if forall item <- items :: IsData(heap, item, 63 - |path|, keywords) {
      forall child <- visit.children ensures Holds(heap, voc, child) {
        var i :| 0 <= i < |items| && visit.children[i] == child;
        assert items[i] in items;
      }
    }
  }

  lemma LiteralsAlike(heap: Heap, fields: map<string, Value>)
    ensures IsLiteral(heap, fields) <==> IsJsonLiteral(heap, fields)
  {
  }

  lemma ExtensionFields(heap: Heap, voc: Vocabulary, v: Value, path: FieldPath, keywords: bool, ancestors: set<nat>)
    requires Closed(heap) && |path| <= MAXIMUM_PATH_DEPTH && IsRecord(heap, v) && v.id !in ancestors
    ensures VisitHolds(heap, voc, VisitExtension(heap, v, path, keywords, ancestors)) <==>
              IsData(heap, v, 64 - |path|, keywords)
  {
    hide Clean, NoErrors, CheckKeywords, HasKeywordShapes, IsLiteral, IsJsonLiteral;
    assert WellFormed(heap, heap[v.id]);
    hide Closed;
    var keys, fields := heap[v.id].keys, heap[v.id].fields;
    LiteralsAlike(heap, fields);
    FirstAlienIsFirst(keys, fields);
    KeywordsAreClean(heap, fields, path);
    ReportsAreClean(CheckKeywords(heap, fields, path));
    OneReport(Diagnostic(NonJsonValue, path));
    var visit := VisitExtension(heap, v, path, keywords, ancestors);
    var alien := FirstAlien(keys, fields);
    if alien.Some? {
      OneReport(Diagnostic(NonJsonValue, At(path, Key(alien.value))));
      var key :| key in fields && fields[key].Alien?;
      assert !FieldIsData(heap, fields, key, 63 - |path|, keywords);
    } else {
      FieldsHold(heap, voc, keys, fields, path, keywords, visit.children);
    }
  }

  function FieldTask(heap: Heap, fields: map<string, Value>, key: string, path: FieldPath, keywords: bool): Task
    requires key in fields
  {
    Extension(fields[key], At(path, Key(key)), keywords && !(IsJsonLiteral(heap, fields) && key == "@value"))
  }

  ghost predicate FieldIsData(heap: Heap, fields: map<string, Value>, key: string, room: int, keywords: bool)
    requires key in fields
  {
    IsData(heap, fields[key], room, keywords && !(IsLiteral(heap, fields) && key == "@value"))
  }

  lemma FieldTaskHolds(
    heap: Heap, voc: Vocabulary, fields: map<string, Value>, key: string, path: FieldPath, keywords: bool)
    requires key in fields
    ensures Holds(heap, voc, FieldTask(heap, fields, key, path, keywords)) <==>
              FieldIsData(heap, fields, key, 63 - |path|, keywords)
  {
    hide IsData, IsLiteral, IsJsonLiteral;
    LiteralsAlike(heap, fields);
  }

  lemma FieldsHold(heap: Heap, voc: Vocabulary, keys: seq<string>, fields: map<string, Value>, path: FieldPath,
                   keywords: bool, children: seq<Task>)
    requires (forall key :: key in keys <==> key in fields) && |children| == |keys|
    requires forall i | 0 <= i < |keys| ::
      keys[i] in fields && children[i] == FieldTask(heap, fields, keys[i], path, keywords)
    ensures (forall child <- children :: Holds(heap, voc, child)) <==>
              forall key <- fields :: FieldIsData(heap, fields, key, 63 - |path|, keywords)
  {
    hide FieldIsData, FieldTask, Holds;
    if forall child <- children :: Holds(heap, voc, child) {
      forall key <- fields ensures FieldIsData(heap, fields, key, 63 - |path|, keywords) {
        var i :| 0 <= i < |keys| && keys[i] == key;
        assert children[i] in children;
        FieldTaskHolds(heap, voc, fields, key, path, keywords);
      }
    }
    if forall key <- fields :: FieldIsData(heap, fields, key, 63 - |path|, keywords) {
      forall child <- children ensures Holds(heap, voc, child) {
        var i :| 0 <= i < |children| && children[i] == child;
        FieldTaskHolds(heap, voc, fields, keys[i], path, keywords);
      }
    }
  }

  // ------------------------------------------------------------ entering a document

  lemma ContextsAreRead(heap: Heap, voc: Vocabulary, fields: map<string, Value>, path: FieldPath,
                        inherited: Option<nat>)
    ensures var (findings, context) := ReadContext(heap, voc, fields, path, inherited);
            && (context.Some? ==> NoErrors(findings))
            && forall c: nat :: context == Some(c) <==> HasContext(heap, voc, fields, inherited, c)
  {
    hide Unfold, ContextFindings;
    OneFinding(Diagnostic(ImplicitActivityStreamsContext, At(path, Key("@context"))));
    NothingFound();
    hide NoErrors;
  }

  lemma {:induction false} TypeKeysDiffer(voc: Vocabulary, context: nat, keys: seq<string>)
    requires Distinct(keys)
    ensures Distinct(TypeKeys(voc, context, keys))
  {
    if keys != [] {
      var rest := keys[1..];
      assert forall i | 0 <= i < |rest| :: rest[i] == keys[i + 1];
      TypeKeysDiffer(voc, context, rest);
      assert keys[0] !in rest;
    }
  }

  lemma TypeKeysAreFew(voc: Vocabulary, context: nat, keys: seq<string>)
    requires Distinct(keys)
    ensures |TypeKeys(voc, context, keys)| <= 1 <==>
              forall a, b | a in keys && b in keys && IsTypeKey(voc, context, a) && IsTypeKey(voc, context, b) :: a == b
  {
    TypeKeysDiffer(voc, context, keys);
    hide Distinct;
    var types := TypeKeys(voc, context, keys);
    if |types| > 1 {
      assert types[0] in types && types[1] in types;
      TwoDiffer(types);
    } else {
      forall a, b | a in keys && b in keys && IsTypeKey(voc, context, a) && IsTypeKey(voc, context, b) ensures a == b {
        assert a in types && b in types;
      }
    }
  }

  lemma TwoDiffer(keys: seq<string>)
    requires Distinct(keys) && |keys| > 1
    ensures keys[0] != keys[1]
  {
  }

  lemma TypesAreRead(heap: Heap, voc: Vocabulary, keys: seq<string>, fields: map<string, Value>, path: FieldPath,
                     context: nat)
    requires Distinct(keys) && forall key :: key in keys <==> key in fields
    ensures forall kind: nat :: ReadType(heap, voc, keys, fields, path, context).1 == Some(kind) <==>
                             HasType(voc, fields, context, kind)
  {
    TypeKeysAreFew(voc, context, keys);
    hide Distinct;
    var types := TypeKeys(voc, context, keys);
    var source := if types == [] then "type" else types[0];
    if |types| <= 1 {
      if types != [] { assert types[0] in types; }
      forall key | IsTypeKey(voc, context, key) && key in fields ensures types == [key] { assert key in types; }
      forall kind: nat
        ensures ReadType(heap, voc, keys, fields, path, context).1 == Some(kind) <==>
                  HasType(voc, fields, context, kind)
      {
        if ReadType(heap, voc, keys, fields, path, context).1 == Some(kind) {
          assert source in fields && fields[source].Str? && voc.readType(context, fields[source].s) == Some(kind);
          assert IsTypeKey(voc, context, source)
                 || (source == "type" && forall other <- fields :: !IsTypeKey(voc, context, other));
        }
      }
    }
  }

  lemma HeadersAreClean(heap: Heap, voc: Vocabulary, node: Node, path: FieldPath, inherited: Option<nat>,
                        range: Option<nat>, decoder: Option<nat>)
    requires node.Record? && Distinct(node.keys) && forall key :: key in node.keys <==> key in node.fields
    ensures var entrance := EnterRecord(heap, voc, node, path, inherited, range, decoder);
            && (entrance.Turned? ==> !NoErrors(entrance.findings))
            && forall context: nat, kind: nat ::
                 entrance.Entered? && NoErrors(entrance.findings) && entrance.context == context
                   && entrance.kind == kind
                 <==> IsHeaded(heap, voc, node.fields, inherited, range, decoder, context, kind)
  {
    var entrance := EnterRecord(heap, voc, node, path, inherited, range, decoder);
    var (findings, context) := ReadContext(heap, voc, node.fields, path, inherited);
    ContextsAreRead(heap, voc, node.fields, path, inherited);
    if context.Some? { TypesAreRead(heap, voc, node.keys, node.fields, path, context.value); }
    OneFinding(Diagnostic(UnsupportedValueForm, path));
    OneFinding(Diagnostic(InvalidValueShape, path));
    NothingFound();
    BothClean(findings, [Diagnostic(UnsupportedValueForm, path)]);
    BothClean(findings, []);
    if entrance.Turned? { TurnedIsDirty(entrance.findings); }
    hide NoErrors, ReadContext, ReadType, HasContext, HasType, Distinct;
  }

  lemma TurnedIsDirty(findings: seq<Diagnostic>)
    requires HasError(findings)
    ensures !NoErrors(findings)
  {
  }

  lemma PropertiesHold(heap: Heap, voc: Vocabulary, v: Value, path: FieldPath, context: nat, kind: nat)
    requires IsRecord(heap, v) && forall key :: key in heap[v.id].keys <==> key in heap[v.id].fields
    ensures (forall child <- PropertyTasks(voc, v.id, path, context, kind, heap[v.id].keys) ::
               Holds(heap, voc, child)) <==>
              FieldsConform(heap, voc, heap[v.id].fields, 63 - |path|, context, kind)
  {
    hide IsField, PropertyTasks;
    var node := heap[v.id];
    var tasks := PropertyTasks(voc, v.id, path, context, kind, node.keys);
    if forall child <- tasks :: Holds(heap, voc, child) {
      forall key <- node.fields | key != "@context" && !voc.names(context, key)
        ensures IsField(heap, voc, node.fields, key, 63 - |path|, context, kind)
      {
        assert Property(v.id, path, context, kind, key) in tasks;
      }
    }
  }

  lemma DocumentsStep(heap: Heap, voc: Vocabulary, v: Value, path: FieldPath, inherited: Option<nat>,
                      range: Option<nat>, decoder: Option<nat>, ancestors: set<nat>)
    requires Closed(heap) && Present(heap, v) && (v.Ref? ==> v.id !in ancestors)
    ensures VisitHolds(heap, voc, VisitDocument(heap, voc, v, path, inherited, range, decoder, ancestors)) <==>
              Conforms(heap, voc, v, 64 - |path|, inherited, range, decoder)
  {
    hide Clean, NoErrors, EnterRecord, IsHeaded, FieldsConform, PropertyTasks, Holds;
    OneReport(Diagnostic(ProcessingLimitExceeded, path));
    OneReport(Diagnostic(NonJsonValue, path));
    OneReport(Diagnostic(InvalidDocumentRoot, path));
    if |path| <= MAXIMUM_PATH_DEPTH && IsRecord(heap, v) {
      var node := heap[v.id];
      assert WellFormed(heap, node);
      hide Closed;
      FirstAlienIsFirst(node.keys, node.fields);
      var alien := FirstAlien(node.keys, node.fields);
      if alien.Some? {
        OneReport(Diagnostic(NonJsonValue, At(path, Key(alien.value))));
      } else {
        var entrance := EnterRecord(heap, voc, node, path, inherited, range, decoder);
        HeadersAreClean(heap, voc, node, path, inherited, range, decoder);
        ReportsAreClean(entrance.findings);
        if entrance.Entered? {
          var context, kind := entrance.context, entrance.kind;
          PropertiesHold(heap, voc, v, path, context, kind);
          assert IsHeaded(heap, voc, node.fields, inherited, range, decoder, context, kind) <==>
                   NoErrors(entrance.findings);
          assert 64 - |path| - 1 == 63 - |path|;
          var visit := VisitDocument(heap, voc, v, path, inherited, range, decoder, ancestors);
          assert visit.events == Reports(entrance.findings);
          assert visit.children == PropertyTasks(voc, v.id, path, context, kind, node.keys);
        }
      }
    }
  }

  // ------------------------------------------------------------ references

  lemma NullIsReference(heap: Heap, voc: Vocabulary, room: int, context: nat, range: Option<nat>, decoder: Option<nat>)
    ensures IsReference(heap, voc, Null, room, context, range, decoder)
  {
  }

  lemma EmbeddedHold(heap: Heap, voc: Vocabulary, items: seq<Value>, nulls: bool, path: FieldPath, context: nat,
                     range: Option<nat>, decoder: Option<nat>)
    ensures (forall child <- EmbeddedTasks(items, 0, nulls, path, context, range, decoder) ::
               Holds(heap, voc, child)) <==>
              forall item <- items :: IsReference(heap, voc, item, 63 - |path|, context, range, decoder)
  {
    hide IsReference, EmbeddedTasks;
    var tasks := EmbeddedTasks(items, 0, nulls, path, context, range, decoder);
    NullIsReference(heap, voc, 63 - |path|, context, range, decoder);
    forall child <- tasks
      ensures child.Embedded? && child.v in items
      ensures Holds(heap, voc, child) <==> IsReference(heap, voc, child.v, 63 - |path|, context, range, decoder)
    {
      assert 64 - |child.path| == 63 - |path|;
    }
    if forall child <- tasks :: Holds(heap, voc, child) {
      forall item <- items ensures IsReference(heap, voc, item, 63 - |path|, context, range, decoder) {
        var i :| 0 <= i < |items| && items[i] == item;
        if !item.Null? { assert Embedded(items[i], At(path, Index(i)), context, range, decoder) in tasks; }
      }
    }
  }

  lemma TogetherHold(heap: Heap, voc: Vocabulary, some: seq<Task>, more: seq<Task>)
    ensures (forall child <- some + more :: Holds(heap, voc, child)) <==>
              (forall child <- some :: Holds(heap, voc, child)) && forall child <- more :: Holds(heap, voc, child)
  {
    hide Holds;
    assert forall child :: child in some + more <==> child in some || child in more;
  }

  lemma ManyReferencesStep(heap: Heap, voc: Vocabulary, rule: Rule, v: Value, path: FieldPath, context: nat)
    requires rule.References? && IsList(heap, v) && heap[v.id].items != []
    ensures VisitHolds(heap, voc, VisitReferences(heap, rule, v, path, context)) <==>
              AreReferences(heap, voc, rule, v, 64 - |path|, context)
  {
    hide IsReference, EmbeddedTasks, NonNull, AtMostOne;
    var items := heap[v.id].items;
    NonNullCounts(items);
    EmbeddedHold(heap, voc, items, !rule.navigation, path, context, rule.range, rule.decoder);
    var tasks := EmbeddedTasks(items, 0, !rule.navigation, path, context, rule.range, rule.decoder);
    var finding := Finding(Diagnostic(InvalidMultiplicity, path));
    assert !Holds(heap, voc, finding);
    hide Holds;
    var before := if rule.navigation && CountValues(heap, v) > 1 then [finding] else [];
    TogetherHold(heap, voc, before, tasks);
    if before != [] { assert finding in before; }
    assert 64 - |path| - 1 == 63 - |path|;
  }

  lemma ReferencesStep(heap: Heap, voc: Vocabulary, rule: Rule, v: Value, path: FieldPath, context: nat)
    requires rule.References?
    ensures VisitHolds(heap, voc, VisitReferences(heap, rule, v, path, context)) <==>
              AreReferences(heap, voc, rule, v, 64 - |path|, context)
  {
    hide Clean, IsReference, EmbeddedTasks, NonNull, AtMostOne, CountValues;
    OneReport(Diagnostic(UnsupportedValueForm, path));
    NullIsReference(heap, voc, 64 - |path|, context, rule.range, rule.decoder);
    if IsList(heap, v) && heap[v.id].items != [] {
      hide VisitHolds, VisitReferences, AreReferences;
      ManyReferencesStep(heap, voc, rule, v, path, context);
    } else if !IsList(heap, v) && !v.Null? {
      var child := Embedded(v, path, context, rule.range, rule.decoder);
      assert VisitReferences(heap, rule, v, path, context).children == [child] && child in [child];
    }
  }

  lemma EmbeddedStep(heap: Heap, voc: Vocabulary, t: Task, ancestors: set<nat>)
    requires Closed(heap) && t.Embedded? && Present(heap, t.v) && (t.v.Ref? ==> t.v.id !in ancestors)
    ensures VisitHolds(heap, voc, VisitEmbedded(heap, voc, t, ancestors)) <==>
              IsReference(heap, voc, t.v, 64 - |t.path|, t.context, t.range, t.decoder)
  {
    hide Clean, NoErrors, VisitDocument, Conforms, CheckScalar, Closed;
    OneReport(Diagnostic(NonJsonValue, t.path));
    OneReport(Diagnostic(UnsupportedValueForm, t.path));
    if IsRecord(heap, t.v) {
      DocumentsStep(heap, voc, t.v, t.path, Some(t.context), t.range, t.decoder, ancestors);
    } else if !IsList(heap, t.v) {
      ScalarsAreClean(heap, voc, Reference, t.v, t.path);
      ReportsAreClean(CheckScalar(heap, voc, Reference, t.v, t.path));
    }
  }

  // ------------------------------------------------------------ properties

  lemma SuppliesAreCounted(heap: Heap, v: Value)
    ensures SuppliesOne(heap, v) <==> CountValues(heap, v) == 1
    ensures SuppliesSome(heap, v) <==> CountValues(heap, v) > 0
  {
    hide AtMostOne, NonNull;
    if IsList(heap, v) { NonNullCounts(heap[v.id].items); }
  }

  lemma AliasesAreSpeltTwice(heap: Heap, voc: Vocabulary, context: nat, kind: nat, fields: map<string, Value>,
                             source: string)
    requires source in fields
    ensures Aliased(heap, voc, context, kind, fields, source) <==>
              IsSpeltTwice(heap, voc, context, kind, fields, source)
  {
    hide SuppliesOne, SuppliesSome, CountValues;
    forall key <- fields
      ensures SuppliesOne(heap, fields[key]) <==> CountValues(heap, fields[key]) == 1
      ensures SuppliesSome(heap, fields[key]) <==> CountValues(heap, fields[key]) > 0
    {
      SuppliesAreCounted(heap, fields[key]);
    }
  }

  lemma OmittableIsEmpty(heap: Heap, rule: Rule, v: Value)
    ensures Omittable(heap, rule, v) <==> IsEmptyField(heap, rule, v)
  {
  }

  lemma CheckedStep(heap: Heap, voc: Vocabulary, t: Task, ancestors: set<nat>)
    requires Closed(heap) && t.Property? && t.doc in heap && heap[t.doc].Record? && t.source in heap[t.doc].fields
    requires voc.plan(t.context, t.kind, t.source).Checked?
    ensures VisitHolds(heap, voc, VisitProperty(heap, voc, t, ancestors)) <==>
              IsField(heap, voc, heap[t.doc].fields, t.source, 63 - |t.path|, t.context, t.kind)
  {
    hide Clean, NoErrors, Aliased, IsSpeltTwice, Omittable, IsEmptyField, CheckLeaf, IsLeaf, VisitReferences,
         AreReferences, Closed;
    var fields := heap[t.doc].fields;
    var v, path, rule := fields[t.source], At(t.path, Key(t.source)), voc.plan(t.context, t.kind, t.source).rule;
    var visit := VisitProperty(heap, voc, t, ancestors);
    AliasesAreSpeltTwice(heap, voc, t.context, t.kind, fields, t.source);
    OmittableIsEmpty(heap, rule, v);
    OneReport(Diagnostic(InvalidMultiplicity, path));
    var alias := if Aliased(heap, voc, t.context, t.kind, fields, t.source)
                 then [Reported(Diagnostic(InvalidMultiplicity, path))] else [];
    if Omittable(heap, rule, v) {
      var reason := if IsList(heap, v) && heap[v.id].items == [] then EmptyPropertyList else AbsentIdentifier;
      OmissionsAreClean(reason, path, v);
      assert visit.events == alias + [Reported(Diagnostic(reason, path)), Proposed(path, v)];
      EventsAreClean(alias, [Reported(Diagnostic(reason, path)), Proposed(path, v)]);
    } else if rule.References? {
      EventsAreClean(alias, VisitReferences(heap, rule, v, path, t.context).events);
      ReferencesStep(heap, voc, rule, v, path, t.context);
      assert 64 - |path| == 63 - |t.path|;
    } else {
      var findings := CheckLeaf(heap, voc, rule, v, path);
      LeavesAreClean(heap, voc, rule, v, path);
      ReportsAreClean(findings);
      EventsAreClean(alias, Reports(findings));
    }
  }

  lemma OmissionsAreClean(reason: Reason, path: FieldPath, v: Value)
    requires reason == EmptyPropertyList || reason == AbsentIdentifier
    ensures Clean([Reported(Diagnostic(reason, path)), Proposed(path, v)])
  {
  }

  lemma OpaqueStep(heap: Heap, voc: Vocabulary, v: Value, path: FieldPath, ancestors: set<nat>)
    requires Closed(heap) && Present(heap, v) && (v.Ref? ==> v.id !in ancestors)
    ensures var warning := Reported(Diagnostic(ExtensionPropertyUnchecked, path));
            VisitHolds(heap, voc, Prefixed([warning], VisitExtension(heap, v, path, true, ancestors))) <==>
              IsData(heap, v, 64 - |path|, true)
  {
    hide Clean, VisitExtension, IsData;
    OneReport(Diagnostic(ExtensionPropertyUnchecked, path));
    EventsAreClean([Reported(Diagnostic(ExtensionPropertyUnchecked, path))],
                   VisitExtension(heap, v, path, true, ancestors).events);
    ExtensionsStep(heap, voc, v, path, true, ancestors);
  }

  lemma OpaqueFieldIsData(heap: Heap, voc: Vocabulary, t: Task, ancestors: set<nat>)
    requires t.Property? && t.doc in heap && heap[t.doc].Record? && t.source in heap[t.doc].fields
    requires voc.plan(t.context, t.kind, t.source).Opaque?
    ensures var v, path := heap[t.doc].fields[t.source], At(t.path, Key(t.source));
            && VisitProperty(heap, voc, t, ancestors)
               == Prefixed([Reported(Diagnostic(ExtensionPropertyUnchecked, path))],
                           VisitExtension(heap, v, path, true, ancestors))
            && (IsField(heap, voc, heap[t.doc].fields, t.source, 63 - |t.path|, t.context, t.kind) <==>
                  IsData(heap, v, 63 - |t.path|, true))
  {
    hide VisitExtension, IsData;
  }

  lemma OpaqueFieldStep(heap: Heap, voc: Vocabulary, t: Task, ancestors: set<nat>)
    requires Closed(heap) && t.Property? && t.doc in heap && heap[t.doc].Record? && t.source in heap[t.doc].fields
    requires voc.plan(t.context, t.kind, t.source).Opaque?
    requires heap[t.doc].fields[t.source].Ref? ==> heap[t.doc].fields[t.source].id !in ancestors
    ensures VisitHolds(heap, voc, VisitProperty(heap, voc, t, ancestors)) <==>
              IsField(heap, voc, heap[t.doc].fields, t.source, 63 - |t.path|, t.context, t.kind)
  {
    assert WellFormed(heap, heap[t.doc]);
    hide VisitHolds, VisitExtension, IsData, Closed, VisitProperty, IsField;
    var v, path := heap[t.doc].fields[t.source], At(t.path, Key(t.source));
    OpaqueFieldIsData(heap, voc, t, ancestors);
    OpaqueStep(heap, voc, v, path, ancestors);
    assert 64 - |path| == 63 - |t.path|;
  }

  lemma UnsupportedStep(heap: Heap, voc: Vocabulary, t: Task, ancestors: set<nat>)
    requires t.Property? && t.doc in heap && heap[t.doc].Record? && t.source in heap[t.doc].fields
    requires !voc.plan(t.context, t.kind, t.source).Opaque? && !voc.plan(t.context, t.kind, t.source).Checked?
    ensures VisitHolds(heap, voc, VisitProperty(heap, voc, t, ancestors)) <==>
              IsField(heap, voc, heap[t.doc].fields, t.source, 63 - |t.path|, t.context, t.kind)
  {
    hide Clean;
    var path := At(t.path, Key(t.source));
    OneReport(Diagnostic(UnsupportedProperty, path));
    OneReport(Diagnostic(UnsupportedValueForm, path));
    OneReport(Diagnostic(PropertyNotApplicable, path));
    assert Reports([]) == [];
  }

  lemma PropertiesStep(heap: Heap, voc: Vocabulary, t: Task, ancestors: set<nat>)
    requires Closed(heap) && t.Property? && t.doc in heap && heap[t.doc].Record? && t.source in heap[t.doc].fields
    requires voc.plan(t.context, t.kind, t.source).Opaque? && heap[t.doc].fields[t.source].Ref? ==>
               heap[t.doc].fields[t.source].id !in ancestors
    ensures VisitHolds(heap, voc, VisitProperty(heap, voc, t, ancestors)) <==>
              IsField(heap, voc, heap[t.doc].fields, t.source, 63 - |t.path|, t.context, t.kind)
  {
    hide VisitHolds, VisitProperty, IsField, Closed;
    var plan := voc.plan(t.context, t.kind, t.source);
    if plan.Checked? { CheckedStep(heap, voc, t, ancestors); }
    else if plan.Opaque? { OpaqueFieldStep(heap, voc, t, ancestors); }
    else { UnsupportedStep(heap, voc, t, ancestors); }
  }

  // ------------------------------------------------------------ any task

  /** The value a task looks at. */
  function TargetOf(heap: Heap, t: Task): Option<Value> {
    match t
    case Property(doc, _, _, _, source) =>
      if doc in heap && heap[doc].Record? && source in heap[doc].fields then Some(heap[doc].fields[source]) else None
    case Finding(_) => None
    case _ => Some(t.v)
  }

  /** The container a task looks into is not open already. */
  ghost predicate IsFresh(heap: Heap, voc: Vocabulary, t: Task, ancestors: set<nat>) {
    var target := TargetOf(heap, t);
    target.Some? && target.value.Ref? && (t.Property? ==> voc.plan(t.context, t.kind, t.source).Opaque?) ==>
      target.value.id !in ancestors
  }

  lemma TasksStep(heap: Heap, voc: Vocabulary, t: Task, ancestors: set<nat>)
    requires Closed(heap) && Held(heap, t) && IsFresh(heap, voc, t, ancestors)
    ensures VisitHolds(heap, voc, VisitTask(heap, voc, t, ancestors)) <==> Holds(heap, voc, t)
  {
    hide Closed, VisitExtension, VisitDocument, VisitEmbedded, IsData, Conforms, IsReference, IsField, Clean;
    match t
    case Extension(v, path, keywords) => ExtensionsStep(heap, voc, v, path, keywords, ancestors);
    case Document(v, path, inherited, range, decoder) =>
      DocumentsStep(heap, voc, v, path, inherited, range, decoder, ancestors);
    case Embedded(_, _, _, _, _) => EmbeddedStep(heap, voc, t, ancestors);
    case Finding(d) => OneReport(d);
    case Property(doc, _, _, _, source) =>
      if TargetOf(heap, t).Some? {
        hide VisitProperty;
        PropertiesStep(heap, voc, t, ancestors);
      } else {
        OneReport(Diagnostic(ProcessingLimitExceeded, []));
        assert Reports([]) == [];
      }
  }

  // ------------------------------------------------------------ what is clean conforms

  /** A container that is open already is reported when it is met again. */
  lemma StaleIsDirty(heap: Heap, voc: Vocabulary, t: Task, ancestors: set<nat>)
    requires Closed(heap) && Held(heap, t) && !IsFresh(heap, voc, t, ancestors)
    ensures !Clean(VisitTask(heap, voc, t, ancestors).events)
  {
    hide Clean, EnterRecord, CheckKeywords, CheckLeaf, VisitReferences, Aliased, Omittable;
    var v := TargetOf(heap, t).value;
    var path := if t.Property? then At(t.path, Key(t.source)) else t.path;
    OneReport(Diagnostic(ProcessingLimitExceeded, path));
    OneReport(Diagnostic(NonJsonValue, path));
    OneReport(Diagnostic(UnsupportedValueForm, path));
    if t.Property? {
      assert WellFormed(heap, heap[t.doc]);
      EventsAreClean([Reported(Diagnostic(ExtensionPropertyUnchecked, path))],
                     VisitExtension(heap, v, path, true, ancestors).events);
    }
  }

  /** A task whose whole walk is clean checks what conforms. */
  lemma {:induction false} CleanHolds(heap: Heap, voc: Vocabulary, t: Task, ancestors: set<nat>)
    requires Closed(heap) && Bounded(t) && Held(heap, t)
    requires Clean(Walk(heap, voc, t, ancestors).0)
    ensures Holds(heap, voc, t)
    decreases Room(t)
  {
    var visit := VisitTask(heap, voc, t, ancestors);
    ChildrenHaveLessRoom(heap, voc, t, ancestors);
    ChildrenAreHeld(heap, voc, t, ancestors);
    hide VisitTask, WalkAll, Holds, Clean, Closed, Held, IsFresh;
    var below := WalkAll(heap, voc, visit.children, ancestors + Opened(visit), Room(t)).0;
    assert Walk(heap, voc, t, ancestors).0 == visit.events + below;
    hide Walk;
    EventsAreClean(visit.events, below);
    if !IsFresh(heap, voc, t, ancestors) { StaleIsDirty(heap, voc, t, ancestors); }
    forall child <- visit.children ensures Holds(heap, voc, child) {
      CleanChildren(heap, voc, visit.children, ancestors + Opened(visit), Room(t), child);
      CleanHolds(heap, voc, child, ancestors + Opened(visit));
    }
    TasksStep(heap, voc, t, ancestors);
  }

  // ------------------------------------------------------------ what conforms is clean

  ghost predicate IsElement(heap: Heap, v: Value, element: Value) {
    && v.Ref? && v.id in heap
    && match heap[v.id]
       case List(items) => element in items
       case Record(_, fields) => exists key <- fields :: fields[key] == element
  }

  /** The value unfolds within a depth at which the container does not. */
  ghost predicate Outgrows(heap: Heap, id: nat, v: Value, n: nat) {
    Unfold(heap, v, n).Some? && Unfold(heap, Ref(id), n).None?
  }

  /** The value is finite, and lower than every container that is open. */
  ghost predicate IsBelow(heap: Heap, v: Value, ancestors: set<nat>) {
    && (exists n: nat :: Unfold(heap, v, n).Some?)
    && forall id <- ancestors :: exists n: nat :: Outgrows(heap, id, v, n)
  }

  lemma BelowIsNotOpen(heap: Heap, v: Value, ancestors: set<nat>)
    requires IsBelow(heap, v, ancestors) && v.Ref?
    ensures v.id !in ancestors
  {
    assert v == Ref(v.id) && forall n: nat :: !Outgrows(heap, v.id, v, n);
  }

  lemma {:induction false} LeastDepth(heap: Heap, v: Value, n: nat) returns (least: nat)
    requires Unfold(heap, v, n).Some?
    ensures Unfold(heap, v, least).Some? && (least > 0 ==> Unfold(heap, v, least - 1).None?)
  {
    least := n;
    if n > 0 && Unfold(heap, v, n - 1).Some? { least := LeastDepth(heap, v, n - 1); }
  }

  lemma ElementIsLower(heap: Heap, v: Value, element: Value, n: nat)
    requires IsElement(heap, v, element) && Unfold(heap, v, n).Some?
    ensures n > 0 && Unfold(heap, element, n - 1).Some?
  {
    match heap[v.id]
    case List(items) => var i :| 0 <= i < |items| && items[i] == element;
    case Record(_, fields) =>
  }

  lemma ElementIsBelow(heap: Heap, v: Value, element: Value, ancestors: set<nat>)
    requires IsBelow(heap, v, ancestors) && IsElement(heap, v, element)
    ensures IsBelow(heap, element, ancestors + {v.id})
  {
    hide Unfold, IsElement;
    assert v.Ref? by { ElementsAreInContainers(heap, v, element); }
    var some: nat :| Unfold(heap, v, some).Some?;
    var least := LeastDepth(heap, v, some);
    ElementIsLower(heap, v, element, least);
    assert v == Ref(v.id) && Outgrows(heap, v.id, element, least - 1);
    forall id <- ancestors ensures exists n: nat :: Outgrows(heap, id, element, n) {
      var n: nat :| Outgrows(heap, id, v, n);
      ElementIsLower(heap, v, element, n);
      UnfoldDeeper(heap, element, n - 1, n);
      assert Outgrows(heap, id, element, n);
    }
  }

  lemma ElementsAreInContainers(heap: Heap, v: Value, element: Value)
    requires IsElement(heap, v, element)
    ensures v.Ref? && v.id in heap
  {
  }

  lemma FewerAreOpen(heap: Heap, v: Value, ancestors: set<nat>, fewer: set<nat>)
    requires IsBelow(heap, v, ancestors) && fewer <= ancestors
    ensures IsBelow(heap, v, fewer)
  {
    hide Outgrows, Unfold;
  }

  /** A child looks at the value of its task, or at an element of it, which alone can have been opened. */
  ghost predicate LooksBelow(heap: Heap, v: Value, visit: Visit, child: Task) {
    var target := TargetOf(heap, child);
    && Opened(visit) <= (if v.Ref? then {v.id} else {})
    && (target.Some? ==> (target.value == v && visit.opens.None?) || IsElement(heap, v, target.value))
  }

  lemma ExtensionsLookBelow(heap: Heap, v: Value, path: FieldPath, keywords: bool, ancestors: set<nat>)
    requires Closed(heap)
    ensures var visit := VisitExtension(heap, v, path, keywords, ancestors);
            forall child <- visit.children :: LooksBelow(heap, v, visit, child)
  {
    hide CheckKeywords, IsJsonLiteral;
    if v.Ref? && v.id in heap { assert WellFormed(heap, heap[v.id]); }
    hide Closed;
    var visit := VisitExtension(heap, v, path, keywords, ancestors);
    forall child <- visit.children ensures LooksBelow(heap, v, visit, child) {
      var i :| 0 <= i < |visit.children| && visit.children[i] == child;
      match heap[v.id]
      case List(items) => assert child.v == items[i];
      case Record(keys, fields) => assert keys[i] in keys; assert child.v == fields[keys[i]];
    }
  }

  lemma DocumentsLookBelow(heap: Heap, voc: Vocabulary, v: Value, path: FieldPath, inherited: Option<nat>,
                           range: Option<nat>, decoder: Option<nat>, ancestors: set<nat>)
    ensures var visit := VisitDocument(heap, voc, v, path, inherited, range, decoder, ancestors);
            forall child <- visit.children :: LooksBelow(heap, v, visit, child)
  {
    hide EnterRecord, PropertyTasks, FirstAlien;
  }

  lemma ReferencesLookBelow(heap: Heap, rule: Rule, v: Value, path: FieldPath, context: nat)
    requires rule.References?
    ensures var visit := VisitReferences(heap, rule, v, path, context);
            visit.opens.None? && forall child <- visit.children :: LooksBelow(heap, v, visit, child)
  {
    hide EmbeddedTasks, CountValues;
    var visit := VisitReferences(heap, rule, v, path, context);
    forall child <- visit.children ensures LooksBelow(heap, v, visit, child) {
      if IsList(heap, v) && !child.Finding? {
        assert child in EmbeddedTasks(heap[v.id].items, 0, !rule.navigation, path, context, rule.range, rule.decoder);
        assert child.v in heap[v.id].items;
      }
    }
  }

  lemma TasksLookBelow(heap: Heap, voc: Vocabulary, t: Task, ancestors: set<nat>)
    requires Closed(heap)
    ensures var visit, target := VisitTask(heap, voc, t, ancestors), TargetOf(heap, t);
            forall child <- visit.children :: target.Some? && LooksBelow(heap, target.value, visit, child)
  {
    hide VisitExtension, VisitDocument, VisitReferences, CheckLeaf, Aliased, Omittable, LooksBelow, Closed, CheckScalar;
    match t
    case Extension(v, path, keywords) => ExtensionsLookBelow(heap, v, path, keywords, ancestors);
    case Document(v, path, inherited, range, decoder) =>
      DocumentsLookBelow(heap, voc, v, path, inherited, range, decoder, ancestors);
    case Embedded(v, path, context, range, decoder) =>
      DocumentsLookBelow(heap, voc, v, path, Some(context), range, decoder, ancestors);
    case Finding(_) =>
    case Property(doc, path, context, kind, source) =>
      if TargetOf(heap, t).Some? {
        var v, at := TargetOf(heap, t).value, At(path, Key(source));
        var plan := voc.plan(context, kind, source);
        if plan.Opaque? {
          ExtensionsLookBelow(heap, v, at, true, ancestors);
          SameLooks(heap, v, VisitExtension(heap, v, at, true, ancestors), VisitTask(heap, voc, t, ancestors));
        } else if plan.Checked? && plan.rule.References? && !Omittable(heap, plan.rule, v) {
          ReferencesLookBelow(heap, plan.rule, v, at, context);
          SameLooks(heap, v, VisitReferences(heap, plan.rule, v, at, context), VisitTask(heap, voc, t, ancestors));
        }
      }
  }

  lemma SameLooks(heap: Heap, v: Value, visit: Visit, other: Visit)
    requires other.opens == visit.opens && other.children == visit.children
    ensures forall child :: LooksBelow(heap, v, visit, child) <==> LooksBelow(heap, v, other, child)
  {
  }

  lemma ChildrenAreBelow(heap: Heap, voc: Vocabulary, t: Task, ancestors: set<nat>, child: Task)
    requires Closed(heap) && child in VisitTask(heap, voc, t, ancestors).children
    requires TargetOf(heap, t).Some? ==> IsBelow(heap, TargetOf(heap, t).value, ancestors)
    ensures var open := ancestors + Opened(VisitTask(heap, voc, t, ancestors));
            TargetOf(heap, child).Some? ==> IsBelow(heap, TargetOf(heap, child).value, open)
  {
    TasksLookBelow(heap, voc, t, ancestors);
    hide VisitTask, IsBelow, Closed, IsElement;
    var visit, v := VisitTask(heap, voc, t, ancestors), TargetOf(heap, t).value;
    if TargetOf(heap, child).Some? {
      var target := TargetOf(heap, child).value;
      if IsElement(heap, v, target) {
        ElementsAreInContainers(heap, v, target);
        ElementIsBelow(heap, v, target, ancestors);
        FewerAreOpen(heap, target, ancestors + {v.id}, ancestors + Opened(visit));
      } else {
        assert ancestors + Opened(visit) == ancestors;
      }
    }
  }

  lemma {:induction false} AllClean(heap: Heap, voc: Vocabulary, tasks: seq<Task>, ancestors: set<nat>, room: nat)
    requires forall child <- tasks :: Bounded(child) && Room(child) < room
    requires forall child <- tasks :: Clean(Walk(heap, voc, child, ancestors).0)
    ensures Clean(WalkAll(heap, voc, tasks, ancestors, room).0)
  {
    hide Walk, Bounded, Room, Clean;
    if tasks != [] {
      AllClean(heap, voc, tasks[1..], ancestors, room);
      EventsAreClean(Walk(heap, voc, tasks[0], ancestors).0, WalkAll(heap, voc, tasks[1..], ancestors, room).0);
    } else {
      OneReport(Diagnostic(ProcessingLimitExceeded, []));
    }
  }

  /** A task that checks what conforms, and is finite, is walked without an error. */
  lemma {:induction false} HoldsIsClean(heap: Heap, voc: Vocabulary, t: Task, ancestors: set<nat>)
    requires Closed(heap) && Bounded(t) && Held(heap, t) && Holds(heap, voc, t)
    requires TargetOf(heap, t).Some? ==> IsBelow(heap, TargetOf(heap, t).value, ancestors)
    ensures Clean(Walk(heap, voc, t, ancestors).0)
    decreases Room(t)
  {
    var visit := VisitTask(heap, voc, t, ancestors);
    ChildrenHaveLessRoom(heap, voc, t, ancestors);
    ChildrenAreHeld(heap, voc, t, ancestors);
    hide VisitTask, WalkAll, Holds, Clean, Closed, Held, IsBelow, TargetOf;
    var below := WalkAll(heap, voc, visit.children, ancestors + Opened(visit), Room(t)).0;
    assert Walk(heap, voc, t, ancestors).0 == visit.events + below;
    hide Walk;
    var target := TargetOf(heap, t);
    if target.Some? && target.value.Ref? { BelowIsNotOpen(heap, target.value, ancestors); }
    TasksStep(heap, voc, t, ancestors);
    forall child <- visit.children ensures Clean(Walk(heap, voc, child, ancestors + Opened(visit)).0) {
      ChildrenAreBelow(heap, voc, t, ancestors, child);
      HoldsIsClean(heap, voc, child, ancestors + Opened(visit));
    }
    AllClean(heap, voc, visit.children, ancestors + Opened(visit), Room(t));
    EventsAreClean(visit.events, below);
  }

  /**
   * The check of a document finds no error exactly when the document conforms to the vocabulary within 64
   * levels and is finite.
   */
  lemma AcceptedExactlyWhenConforming(heap: Heap, voc: Vocabulary, root: Value)
    requires Closed(heap) && Present(heap, root)
    ensures !HasError(ReportedIn(Findings(heap, voc, root))) <==>
              Conforms(heap, voc, root, 64, None, None, None) && exists depth: nat :: Unfold(heap, root, depth).Some?
  {
    hide Walk, ReportedIn, HasError, Unfold, Conforms, Clean;
    var t := Document(root, [], None, None, None);
    CleanMeansNoErrors(Findings(heap, voc, root));
    if Clean(Findings(heap, voc, root)) {
      CleanHolds(heap, voc, t, {});
      CleanDocumentsUnfold(heap, voc, root);
    }
    if Conforms(heap, voc, root, 64, None, None, None) && exists depth: nat :: Unfold(heap, root, depth).Some? {
      assert IsBelow(heap, root, {});
      HoldsIsClean(heap, voc, t, {});
    }
  }
}
