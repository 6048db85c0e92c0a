/** The whole check of the preview, by induction over the walk of the document. */
module PreviewCheck {
  import opened Wrappers
  import opened Diagnostics
  import opened DocumentGraph
  import opened DocumentRules
  import opened DocumentWalk
  import opened WorkStack
  import opened OpenContainers
  import opened CleanDocuments
  import opened Preview
  import opened Omission
  import opened Proposals
  import opened PreviewNodes
  import opened PreviewAccounts
  import opened PreviewWalk

  // ------------------------------------------------------------ one task: properties

  lemma LikeCount(heap: Heap, nodes: Heap, tr: Trace, gone: set<FieldPath>, v: Value, v': Value, path: FieldPath)
    requires IsPreview(heap, nodes, tr, gone) && Like(tr, v, v', path)
    ensures CountValues(nodes, v') == CountValues(heap, v)
  {
    hide IsPreview;
    SameKind(heap, nodes, tr, gone, v, v', path);
    LikeList(heap, nodes, tr, gone, v, v', path);
    if IsList(heap, v) { SameNonNull(heap[v.id].items, nodes[v'.id].items); }
  }

  lemma LikeOmittable(heap: Heap, nodes: Heap, tr: Trace, gone: set<FieldPath>, rule: Rule, v: Value, v': Value,
                      path: FieldPath)
    requires IsPreview(heap, nodes, tr, gone) && Like(tr, v, v', path)
    ensures Omittable(nodes, rule, v') == Omittable(heap, rule, v)
  {
    hide IsPreview;
    SameKind(heap, nodes, tr, gone, v, v', path);
    LikeList(heap, nodes, tr, gone, v, v', path);
    if IsList(heap, v) {
      var items, items' := heap[v.id].items, nodes[v'.id].items;
      assert (forall item <- items :: item.Null?) <==> (forall i | 0 <= i < |items| :: items[i].Null?);
      assert (forall item <- items' :: item.Null?) <==> (forall i | 0 <= i < |items'| :: items'[i].Null?);
      assert items == [] <==> |items| == 0;
      assert items' == [] <==> |items'| == 0;
    }
  }

  lemma NotAliased(heap: Heap, nodes: Heap, tr: Trace, gone: set<FieldPath>, voc: Vocabulary, context: nat, kind: nat,
                   c: nat, source: string)
    requires IsPreview(heap, nodes, tr, gone) && c in nodes && tr[c].source in heap
    requires heap[tr[c].source].Record? && nodes[c].Record? && source in nodes[c].fields
             && source in heap[tr[c].source].fields
    requires !Aliased(heap, voc, context, kind, heap[tr[c].source].fields, source)
    ensures !Aliased(nodes, voc, context, kind, nodes[c].fields, source)
  {
    hide CountValues;
    var fields, fields' := heap[tr[c].source].fields, nodes[c].fields;
    assert Trimmed(heap, nodes, tr, gone, c);
    forall key <- fields' ensures key in fields && CountValues(nodes, fields'[key]) == CountValues(heap, fields[key]) {
      LikeCount(heap, nodes, tr, gone, fields[key], fields'[key], tr[c].place + [Key(key)]);
    }
  }

  lemma ReferencesAgree(heap: Heap, nodes: Heap, tr: Trace, gone: set<FieldPath>, rule: Rule, v: Value, v': Value,
                        path: FieldPath, context: nat, t: Task)
    requires IsPreview(heap, nodes, tr, gone) && Like(tr, v, v', path) && rule.References?
    requires Clean(VisitReferences(heap, rule, v, path, context).events)
    requires forall child <- VisitReferences(heap, rule, v, path, context).children :: !child.Finding?
    ensures VisitReferences(heap, rule, v, path, context).events == []
    ensures VisitReferences(heap, rule, v, path, context).opens.None?
    ensures Agree(tr, gone, t, VisitReferences(heap, rule, v, path, context),
                  VisitReferences(nodes, rule, v', path, context))
  {
    hide IsPreview, Matched, Related, CountValues, EmbeddedTasks;
    SameKind(heap, nodes, tr, gone, v, v', path);
    LikeList(heap, nodes, tr, gone, v, v', path);
    LikeCount(heap, nodes, tr, gone, v, v', path);
    var visit, visit' := VisitReferences(heap, rule, v, path, context), VisitReferences(nodes, rule, v', path, context);
    if v.Null? {
      NoTasks(tr, gone);
    } else if !IsList(heap, v) {
      OneEmbedded(tr, gone, v, v', path, context, rule.range, rule.decoder);
    } else if heap[v.id].items == [] {
      DirtyReport(Diagnostic(UnsupportedValueForm, path));
    } else {
      assert rule.navigation && CountValues(heap, v) > 1 ==>
               Finding(Diagnostic(InvalidMultiplicity, path)) in visit.children;
      EmbeddedMatch(tr, gone, heap[v.id].items, nodes[v'.id].items, 0, !rule.navigation, path, context, rule.range,
                    rule.decoder);
      assert visit.children
               == EmbeddedTasks(heap[v.id].items, 0, !rule.navigation, path, context, rule.range, rule.decoder);
      assert visit'.children
               == EmbeddedTasks(nodes[v'.id].items, 0, !rule.navigation, path, context, rule.range, rule.decoder);
    }
  }

  lemma OneEmbedded(tr: Trace, gone: set<FieldPath>, v: Value, v': Value, path: FieldPath, context: nat,
                    range: Option<nat>, decoder: Option<nat>)
    requires Like(tr, v, v', path)
    ensures Matched(tr, gone, [Embedded(v, path, context, range, decoder)],
                    [Embedded(v', path, context, range, decoder)])
  {
    var t, t' := Embedded(v, path, context, range, decoder), Embedded(v', path, context, range, decoder);
    EmbeddedAreRelated(tr, gone, t, t');
    hide Related;
    NoTasks(tr, gone);
    MatchFirst(tr, gone, t, t', [], []);
    assert [t] + [] == [t] && [t'] + [] == [t'];
  }

  /** What a property of the document checks is, in the preview, what its copy checks. */
  lemma FieldIsLike(heap: Heap, nodes: Heap, tr: Trace, gone: set<FieldPath>, t: Task, t': Task)
    requires IsPreview(heap, nodes, tr, gone) && t.Property? && Related(tr, gone, t, t') && OpenPath(t) !in gone
    requires t.doc in heap && heap[t.doc].Record? && t.source in heap[t.doc].fields
    ensures t'.doc in nodes && nodes[t'.doc].Record? && t.source in nodes[t'.doc].fields
    ensures Like(tr, heap[t.doc].fields[t.source], nodes[t'.doc].fields[t.source], OpenPath(t))
  {
    hide Separated;
    assert Trimmed(heap, nodes, tr, gone, t'.doc);
  }

  lemma MissingFieldsAgree(heap: Heap, nodes: Heap, tr: Trace, gone: set<FieldPath>, voc: Vocabulary, t: Task, t': Task,
                           ancestors: set<nat>, ancestors': set<nat>)
    requires IsPreview(heap, nodes, tr, gone) && t.Property? && Related(tr, gone, t, t')
    requires t.doc !in heap || !heap[t.doc].Record? || t.source !in heap[t.doc].fields
    ensures Agree(tr, gone, t, VisitProperty(heap, voc, t, ancestors), VisitProperty(nodes, voc, t', ancestors'))
  {
    assert Trimmed(heap, nodes, tr, gone, t'.doc);
    NoTasks(tr, gone);
    assert VisitProperty(heap, voc, t, ancestors) == VisitProperty(nodes, voc, t', ancestors') == Quiet([]);
  }

  lemma CleanSuffix(first: seq<Event>, rest: seq<Event>)
    requires Clean(first + rest)
    ensures Clean(first) && Clean(rest)
  {
    assert forall e <- first :: e in first + rest;
    assert forall e <- rest :: e in first + rest;
  }

  lemma {:induction false} ScalarErrors(keys: seq<string>, check: string -> seq<Diagnostic>)
    requires forall key, d | d in check(key) :: d.reason.Severity() == Error
    ensures forall d <- OverKeys(keys, check) :: d.reason.Severity() == Error
  {
    if keys != [] { ScalarErrors(keys[1..], check); }
  }

  /** The leaf checks know errors only, so a clean one found nothing. */
  lemma ScalarIsStrict(heap: Heap, voc: Vocabulary, check: Check, v: Value, path: FieldPath)
    ensures forall d <- CheckScalar(heap, voc, check, v, path) :: d.reason.Severity() == Error
  {
    hide CheckTextField, FirstAlien, OverKeys;
    if IsRecord(heap, v) {
      var node := heap[v.id];
      forall key, d | d in CheckTextField(voc, check, node, key, At(path, Key(key)))
        ensures d.reason.Severity() == Error {
        TextFieldIsStrict(voc, check, node, key, At(path, Key(key)));
      }
      ScalarErrors(node.keys, (key: string) => CheckTextField(voc, check, node, key, At(path, Key(key))));
    }
  }

  lemma TextFieldIsStrict(voc: Vocabulary, check: Check, node: Node, key: string, path: FieldPath)
    ensures forall d <- CheckTextField(voc, check, node, key, path) :: d.reason.Severity() == Error
  {
  }

  lemma EntriesAreStrict(heap: Heap, voc: Vocabulary, check: Check, items: seq<Value>, path: FieldPath)
    ensures forall d <- OverItems(items, 0,
                                  (i: nat, item: Value) => CheckEntry(heap, voc, check, item, At(path, Index(i)))) ::
      d.reason.Severity() == Error
  {
    hide CheckScalar, OverItems;
    forall i: nat, d | i < |items| && d in CheckEntry(heap, voc, check, items[i], At(path, Index(i)))
      ensures d.reason.Severity() == Error {
      ScalarIsStrict(heap, voc, check, items[i], At(path, Index(i)));
    }
    ItemErrors(items, 0, (i: nat, item: Value) => CheckEntry(heap, voc, check, item, At(path, Index(i))));
  }

  lemma MapIsStrict(heap: Heap, voc: Vocabulary, plain: bool, v: Value, path: FieldPath)
    ensures forall d <- CheckLanguageMap(heap, voc, plain, v, path) :: d.reason.Severity() == Error
  {
    hide CheckTranslation, FirstAlien, OverKeys;
    if IsRecord(heap, v) {
      var node := heap[v.id];
      forall key, d | d in CheckTranslation(voc, plain, node, key, At(path, Key(key)))
        ensures d.reason.Severity() == Error {
        TranslationIsStrict(voc, plain, node, key, At(path, Key(key)));
      }
      ScalarErrors(node.keys, (key: string) => CheckTranslation(voc, plain, node, key, At(path, Key(key))));
    }
  }

  lemma TranslationIsStrict(voc: Vocabulary, plain: bool, node: Node, key: string, path: FieldPath)
    ensures forall d <- CheckTranslation(voc, plain, node, key, path) :: d.reason.Severity() == Error
  {
  }

  lemma NoObjectIsStrict(heap: Heap, v: Value, path: FieldPath)
    ensures forall d <- CheckNoObject(heap, v, path) :: d.reason.Severity() == Error
  {
    if IsList(heap, v) && heap[v.id].items != [] {
      NoObjectEntries(heap, v, path);
      hide CheckNoObject, OverItems;
      ItemErrors(heap[v.id].items, 0, (i: nat, item: Value) => NoObjectEntry(heap, path, i, item));
    }
  }

  lemma LeafIsStrict(heap: Heap, voc: Vocabulary, rule: Rule, v: Value, path: FieldPath)
    requires !rule.References?
    ensures forall d <- CheckLeaf(heap, voc, rule, v, path) :: d.reason.Severity() == Error
  {
    hide CheckScalar, CheckEntry, CheckLanguageMap, CheckNoObject, OverItems, CountValues;
    match rule
    case Single(check) =>
      ScalarIsStrict(heap, voc, check, v, path);
      if IsList(heap, v) { EntriesAreStrict(heap, voc, check, heap[v.id].items, path); }
    case Many(check) =>
      ScalarIsStrict(heap, voc, check, v, path);
      if IsList(heap, v) { EntriesAreStrict(heap, voc, check, heap[v.id].items, path); }
    case LanguageMap(plain) => MapIsStrict(heap, voc, plain, v, path);
    case NoObject => NoObjectIsStrict(heap, v, path);
    case Identifier =>
    case Unchecked =>
  }

  lemma OpaqueAgree(heap: Heap, nodes: Heap, tr: Trace, gone: set<FieldPath>, v: Value, v': Value, t: Task,
                    ancestors: set<nat>, ancestors': set<nat>)
    requires Closed(heap) && IsPreview(heap, nodes, tr, gone) && t.Property? && Like(tr, v, v', OpenPath(t))
    requires Untouched(gone, OpenPath(t)) && OpenPath(t) !in gone && AncestorsAbove(tr, t, ancestors')
    requires Clean(Prefixed([Reported(Diagnostic(ExtensionPropertyUnchecked, OpenPath(t)))],
                            VisitExtension(heap, v, OpenPath(t), true, ancestors)).events)
    ensures Agree(tr, gone, t,
                  Prefixed([Reported(Diagnostic(ExtensionPropertyUnchecked, OpenPath(t)))],
                           VisitExtension(heap, v, OpenPath(t), true, ancestors)),
                  Prefixed([Reported(Diagnostic(ExtensionPropertyUnchecked, OpenPath(t)))],
                           VisitExtension(nodes, v', OpenPath(t), true, ancestors')))
  {
    hide VisitExtension, IsPreview, Matched, Untouched, Closed;
    CleanSuffix([Reported(Diagnostic(ExtensionPropertyUnchecked, OpenPath(t)))],
                VisitExtension(heap, v, OpenPath(t), true, ancestors).events);
    ExtensionsAgree(heap, nodes, tr, gone, v, v', OpenPath(t), true, ancestors, ancestors', t);
  }

  lemma LeavesAgree(heap: Heap, nodes: Heap, tr: Trace, gone: set<FieldPath>, voc: Vocabulary, rule: Rule, v: Value,
                    v': Value, t: Task)
    requires Closed(heap) && IsPreview(heap, nodes, tr, gone) && t.Property? && Like(tr, v, v', OpenPath(t))
             && !rule.References?
    requires Untouched(gone, OpenPath(t)) && Clean(Quiet(CheckLeaf(heap, voc, rule, v, OpenPath(t))).events)
    ensures Agree(tr, gone, t, Quiet(CheckLeaf(heap, voc, rule, v, OpenPath(t))),
                  Quiet(CheckLeaf(nodes, voc, rule, v', OpenPath(t))))
  {
    hide CheckLeaf, IsPreview, Untouched, Closed;
    LeafIsStrict(heap, voc, rule, v, OpenPath(t));
    ClearEvents(CheckLeaf(heap, voc, rule, v, OpenPath(t)));
    LikeIsTwin(heap, nodes, tr, gone, v, v', OpenPath(t));
    LikeHasTwinItems(heap, nodes, tr, gone, v, v', OpenPath(t));
    LikeHasTwinFields(heap, nodes, tr, gone, v, v', OpenPath(t));
    TwinLeaf(heap, nodes, voc, rule, v, v', OpenPath(t));
    NoTasks(tr, gone);
  }

  lemma DirtyQuiet(reason: Reason, path: FieldPath)
    requires reason.Severity() == Error
    ensures !Clean(Quiet([Diagnostic(reason, path)]).events)
  {
    DirtyReport(Diagnostic(reason, path));
  }

  lemma PrefixedByNothing(visit: Visit)
    ensures Prefixed([], visit) == visit
  {
  }

  /** A clean check of a supported property that is not left out: no alias, and what its rule says. */
  lemma CheckedVisit(heap: Heap, voc: Vocabulary, t: Task, ancestors: set<nat>)
    requires t.Property? && t.doc in heap && heap[t.doc].Record? && t.source in heap[t.doc].fields
    requires voc.plan(t.context, t.kind, t.source).Checked? && !LeavesOut(heap, voc, t)
    requires !Aliased(heap, voc, t.context, t.kind, heap[t.doc].fields, t.source)
    ensures VisitProperty(heap, voc, t, ancestors)
         == (var rule, v := voc.plan(t.context, t.kind, t.source).rule, heap[t.doc].fields[t.source];
             if rule.References? then VisitReferences(heap, rule, v, OpenPath(t), t.context)
             else Quiet(CheckLeaf(heap, voc, rule, v, OpenPath(t))))
  {
    hide Aliased, Omittable, VisitReferences, CheckLeaf, VisitExtension, Quiet;
    var rule, v := voc.plan(t.context, t.kind, t.source).rule, heap[t.doc].fields[t.source];
    if rule.References? {
      PrefixedByNothing(VisitReferences(heap, rule, v, OpenPath(t), t.context));
    } else {
      PrefixedByNothing(Quiet(CheckLeaf(heap, voc, rule, v, OpenPath(t))));
    }
  }

  lemma CleanIsNotAliased(heap: Heap, voc: Vocabulary, t: Task, ancestors: set<nat>)
    requires t.Property? && t.doc in heap && heap[t.doc].Record? && t.source in heap[t.doc].fields
    requires voc.plan(t.context, t.kind, t.source).Checked? && Clean(VisitProperty(heap, voc, t, ancestors).events)
    ensures !Aliased(heap, voc, t.context, t.kind, heap[t.doc].fields, t.source)
  {
    hide Aliased, Omittable, VisitReferences, CheckLeaf, VisitExtension, Quiet;
    var e := Reported(Diagnostic(InvalidMultiplicity, OpenPath(t)));
    var visit := VisitProperty(heap, voc, t, ancestors);
    assert Aliased(heap, voc, t.context, t.kind, heap[t.doc].fields, t.source) ==> e in visit.events;
  }

  lemma CheckedAgree(heap: Heap, nodes: Heap, tr: Trace, gone: set<FieldPath>, voc: Vocabulary, t: Task, t': Task,
                     ancestors: set<nat>, ancestors': set<nat>)
    requires Closed(heap) && IsPreview(heap, nodes, tr, gone) && t.Property? && Related(tr, gone, t, t')
             && OpenPath(t) !in gone
    requires t.doc in heap && heap[t.doc].Record? && t.source in heap[t.doc].fields
    requires voc.plan(t.context, t.kind, t.source).Checked? && !LeavesOut(heap, voc, t)
    requires Clean(VisitProperty(heap, voc, t, ancestors).events)
    requires forall child <- VisitProperty(heap, voc, t, ancestors).children :: !child.Finding?
    requires (forall child <- VisitProperty(heap, voc, t, ancestors).children :: child.Extension?) ==>
               Untouched(gone, OpenPath(t))
    ensures Agree(tr, gone, t, VisitProperty(heap, voc, t, ancestors), VisitProperty(nodes, voc, t', ancestors'))
  {
    hide IsPreview, VisitProperty, VisitReferences, CheckLeaf, Aliased, Omittable, Closed, Agree, Untouched;
    var rule, v := voc.plan(t.context, t.kind, t.source).rule, heap[t.doc].fields[t.source];
    FieldIsLike(heap, nodes, tr, gone, t, t');
    var v' := nodes[t'.doc].fields[t.source];
    CleanIsNotAliased(heap, voc, t, ancestors);
    assert t'.doc in tr;
    NotAliased(heap, nodes, tr, gone, voc, t.context, t.kind, t'.doc, t.source);
    LikeOmittable(heap, nodes, tr, gone, rule, v, v', OpenPath(t));
    assert OpenPath(t') == OpenPath(t);
    CheckedVisit(heap, voc, t, ancestors);
    CheckedVisit(nodes, voc, t', ancestors');
    if rule.References? {
      ReferencesAgree(heap, nodes, tr, gone, rule, v, v', OpenPath(t), t.context, t);
    } else {
      LeavesAgree(heap, nodes, tr, gone, voc, rule, v, v', t);
    }
  }

  lemma PropertiesAgree(heap: Heap, nodes: Heap, tr: Trace, gone: set<FieldPath>, voc: Vocabulary, t: Task, t': Task,
                        ancestors: set<nat>, ancestors': set<nat>)
    requires Closed(heap) && IsPreview(heap, nodes, tr, gone) && t.Property? && Related(tr, gone, t, t')
    requires OpenPath(t) !in gone && !LeavesOut(heap, voc, t) && AncestorsAbove(tr, t, ancestors')
    requires Clean(VisitProperty(heap, voc, t, ancestors).events)
    requires forall child <- VisitProperty(heap, voc, t, ancestors).children :: !child.Finding?
    requires (forall child <- VisitProperty(heap, voc, t, ancestors).children :: child.Extension?) ==>
               Untouched(gone, OpenPath(t))
    ensures Agree(tr, gone, t, VisitProperty(heap, voc, t, ancestors), VisitProperty(nodes, voc, t', ancestors'))
  {
    hide IsPreview, VisitReferences, CheckLeaf, Aliased, Omittable, Closed, Agree, Untouched, VisitExtension, Like,
         LeavesOut, Prefixed;
    if t.doc !in heap || !heap[t.doc].Record? || t.source !in heap[t.doc].fields {
      MissingFieldsAgree(heap, nodes, tr, gone, voc, t, t', ancestors, ancestors');
    } else {
      FieldIsLike(heap, nodes, tr, gone, t, t');
      var v, v' := heap[t.doc].fields[t.source], nodes[t'.doc].fields[t.source];
      match voc.plan(t.context, t.kind, t.source)
      case Opaque =>
        assert forall child <- VisitProperty(heap, voc, t, ancestors).children :: child.Extension? by {
          OpaqueChildren(heap, voc, t, ancestors);
        }
        OpaqueAgree(heap, nodes, tr, gone, v, v', t, ancestors, ancestors');
      case Outside => DirtyQuiet(UnsupportedProperty, OpenPath(t));
      case Incompatible => DirtyQuiet(UnsupportedValueForm, OpenPath(t));
      case Inapplicable =>
        if !v.Null? { DirtyQuiet(PropertyNotApplicable, OpenPath(t)); }
        InapplicableAgree(tr, gone, t, v, v');
      case Checked(_) =>
        hide VisitProperty;
        CheckedAgree(heap, nodes, tr, gone, voc, t, t', ancestors, ancestors');
    }
  }

  lemma InapplicableAgree(tr: Trace, gone: set<FieldPath>, t: Task, v: Value, v': Value)
    requires t.Property? && Like(tr, v, v', OpenPath(t)) && v.Null?
    ensures v'.Null? && Agree(tr, gone, t, Quiet([]), Quiet([]))
  {
    NoTasks(tr, gone);
  }

  lemma OpaqueChildren(heap: Heap, voc: Vocabulary, t: Task, ancestors: set<nat>)
    requires t.Property? && t.doc in heap && heap[t.doc].Record? && t.source in heap[t.doc].fields
    requires voc.plan(t.context, t.kind, t.source).Opaque?
    ensures forall child <- VisitProperty(heap, voc, t, ancestors).children :: child.Extension?
  {
    hide CheckKeywords, FirstAlien, IsJsonLiteral;
  }

  // ------------------------------------------------------------ one task: embedded values

  lemma EmbeddedAgree(heap: Heap, nodes: Heap, tr: Trace, gone: set<FieldPath>, voc: Vocabulary, t: Task, t': Task,
                      ancestors: set<nat>, ancestors': set<nat>)
    requires Closed(heap) && IsPreview(heap, nodes, tr, gone) && t.Embedded? && Related(tr, gone, t, t')
    requires AncestorsAbove(tr, t, ancestors')
    requires Clean(VisitEmbedded(heap, voc, t, ancestors).events)
    requires IsRecord(heap, t.v) ==>
               var entrance := EnterRecord(heap, voc, heap[t.v.id], t.path, Some(t.context), t.range, t.decoder);
               entrance.Entered? ==> HeaderStays(voc, gone, t.path, heap[t.v.id].fields, entrance.context)
    ensures Agree(tr, gone, t, VisitEmbedded(heap, voc, t, ancestors), VisitEmbedded(nodes, voc, t', ancestors'))
  {
    hide IsPreview, VisitDocument, CheckScalar, EnterRecord, HeaderStays, Matched, Closed;
    SameKind(heap, nodes, tr, gone, t.v, t'.v, t.path);
    if t.v.Alien? {
      DirtyQuiet(NonJsonValue, t.path);
    } else if IsList(heap, t.v) {
      DirtyQuiet(UnsupportedValueForm, t.path);
    } else if IsRecord(heap, t.v) {
      DocumentsAgree(heap, nodes, tr, gone, voc, t.v, t'.v, t.path, Some(t.context), t.range, t.decoder, ancestors,
                     ancestors', t);
    } else {
      ScalarIsStrict(heap, voc, Reference, t.v, t.path);
      ClearEvents(CheckScalar(heap, voc, Reference, t.v, t.path));
      assert t'.v == t.v by { NotContainer(heap, nodes, tr, gone, t.v, t'.v, t.path); }
      assert TwinFields(heap, nodes, t.v, t'.v) && Twin(heap, nodes, t.v, t'.v);
      TwinScalar(heap, nodes, voc, Reference, t.v, t'.v, t.path);
      NoTasks(tr, gone);
    }
  }

  lemma NotContainer(heap: Heap, nodes: Heap, tr: Trace, gone: set<FieldPath>, v: Value, v': Value, path: FieldPath)
    requires IsPreview(heap, nodes, tr, gone) && Like(tr, v, v', path) && !IsList(heap, v) && !IsRecord(heap, v)
    ensures !v.Ref? && v' == v
  {
    hide IsPreview;
    SameKind(heap, nodes, tr, gone, v, v', path);
  }

  // ------------------------------------------------------------ the whole walk

  /** What the induction asks of a task and its counterpart in the preview. */
  ghost predicate Parallel(heap: Heap, voc: Vocabulary, tr: Trace, gone: set<FieldPath>, t: Task, t': Task,
                           ancestors: set<nat>, ancestors': set<nat>)
  {
    && Bounded(t) && Bounded(t') && Related(tr, gone, t, t') && AncestorsAbove(tr, t, ancestors')
    && Clean(Walk(heap, voc, t, ancestors).0)
    && Accounts(gone, t, Walk(heap, voc, t, ancestors).0)
  }

  lemma RelatedRoom(tr: Trace, gone: set<FieldPath>, t: Task, t': Task)
    requires Related(tr, gone, t, t')
    ensures !t.Finding? && Room(t') == Room(t) && OpenPath(t') == OpenPath(t) && Bounded(t') == Bounded(t)
  {
  }

  /** A clean walk visits cleanly, and leaves no finding behind. */
  lemma CleanVisit(heap: Heap, voc: Vocabulary, t: Task, ancestors: set<nat>)
    requires Bounded(t) && Clean(Walk(heap, voc, t, ancestors).0)
    ensures var visit := VisitTask(heap, voc, t, ancestors);
            && Clean(visit.events)
            && forall child <- visit.children ::
                 Bounded(child) && Clean(Walk(heap, voc, child, ancestors + Opened(visit)).0)
  {
    hide VisitTask, WalkAll;
    ChildrenHaveLessRoom(heap, voc, t, ancestors);
    var visit := VisitTask(heap, voc, t, ancestors);
    CleanSuffix(visit.events, WalkAll(heap, voc, visit.children, ancestors + Opened(visit), Room(t)).0);
    hide Walk;
    forall child <- visit.children ensures Clean(Walk(heap, voc, child, ancestors + Opened(visit)).0) {
      CleanChildren(heap, voc, visit.children, ancestors + Opened(visit), Room(t), child);
    }
  }

  lemma FindingsAreWarnings(heap: Heap, voc: Vocabulary, t: Task, ancestors: set<nat>, child: Task)
    requires child in VisitTask(heap, voc, t, ancestors).children && Bounded(child)
    requires t.Property? && Clean(Walk(heap, voc, child, ancestors + Opened(VisitTask(heap, voc, t, ancestors))).0)
    ensures !child.Finding?
  {
    hide Walk;
    if child.Finding? {
      FindingIsMultiplicity(heap, voc, t, ancestors, child);
      hide VisitTask;
      FindingWalk(heap, voc, child, ancestors + Opened(VisitTask(heap, voc, t, ancestors)));
      DirtyReport(child.d);
    }
  }

  lemma FindingWalk(heap: Heap, voc: Vocabulary, t: Task, ancestors: set<nat>)
    requires t.Finding?
    ensures Walk(heap, voc, t, ancestors).0 == Reports([t.d])
  {
    assert Reports([t.d]) + [] == Reports([t.d]);
  }

  lemma FindingIsMultiplicity(heap: Heap, voc: Vocabulary, t: Task, ancestors: set<nat>, child: Task)
    requires t.Property? && child in VisitTask(heap, voc, t, ancestors).children && child.Finding?
    ensures child.d.reason == InvalidMultiplicity
  {
    hide CheckLeaf, Omittable, Aliased, CheckKeywords, IsJsonLiteral, FirstAlien, CountValues;
  }

  lemma EnteredHeader(heap: Heap, voc: Vocabulary, gone: set<FieldPath>, t: Task, ancestors: set<nat>, v: Value,
                      inherited: Option<nat>)
    requires Closed(heap) && Bounded(t) && (t.Document? || t.Embedded?) && v == t.v && IsRecord(heap, v)
    requires t.Embedded? ==> inherited == Some(t.context)
    requires t.Document? ==> inherited == t.inherited
    requires Clean(VisitTask(heap, voc, t, ancestors).events)
    requires Accounts(gone, t, Walk(heap, voc, t, ancestors).0)
    ensures var entrance := EnterRecord(heap, voc, heap[v.id], t.path, inherited, t.range, t.decoder);
            entrance.Entered? ==> HeaderStays(voc, gone, t.path, heap[v.id].fields, entrance.context)
  {
    hide Walk, EnterRecord, HeaderStays, VisitDocument, Closed, Accounts;
    assert VisitTask(heap, voc, t, ancestors)
             == VisitDocument(heap, voc, v, t.path, inherited, t.range, t.decoder, ancestors);
    CleanDocumentEnters(heap, voc, v, t.path, inherited, t.range, t.decoder, ancestors);
    var entrance := EnterRecord(heap, voc, heap[v.id], t.path, inherited, t.range, t.decoder);
    hide VisitTask;
    DocumentHeaderStays(heap, voc, gone, t, ancestors, v.id, t.path, entrance.context, entrance.kind);
  }

  lemma VisitsAgree(heap: Heap, nodes: Heap, tr: Trace, gone: set<FieldPath>, voc: Vocabulary, t: Task, t': Task,
                    ancestors: set<nat>, ancestors': set<nat>)
    requires Closed(heap) && IsPreview(heap, nodes, tr, gone)
    requires Parallel(heap, voc, tr, gone, t, t', ancestors, ancestors') && !LeftOut(gone, t)
    ensures Agree(tr, gone, t, VisitTask(heap, voc, t, ancestors), VisitTask(nodes, voc, t', ancestors'))
    ensures !LeavesOut(heap, voc, t)
  {
    hide Walk, IsPreview, VisitExtension, VisitDocument, VisitProperty, VisitEmbedded, Closed, Agree, HeaderStays,
         EnterRecord, Accounts, LeavesOut, Untouched;
    CleanVisit(heap, voc, t, ancestors);
    match t
    case Extension(v, path, keywords) =>
      DocumentsStay(heap, voc, t);
      ExtensionsAgree(heap, nodes, tr, gone, v, t'.v, path, keywords, ancestors, ancestors', t);
    case Document(v, path, inherited, range, decoder) =>
      DocumentsStay(heap, voc, t);
      if IsRecord(heap, v) { EnteredHeader(heap, voc, gone, t, ancestors, v, inherited); }
      DocumentsAgree(heap, nodes, tr, gone, voc, v, t'.v, path, inherited, range, decoder, ancestors, ancestors', t);
    case Embedded(v, path, context, range, decoder) =>
      DocumentsStay(heap, voc, t);
      if IsRecord(heap, v) { EnteredHeader(heap, voc, gone, t, ancestors, v, Some(context)); }
      EmbeddedAgree(heap, nodes, tr, gone, voc, t, t', ancestors, ancestors');
    case Property(_, _, _, _, _) =>
      GoneWhenLeftOut(heap, voc, gone, t, ancestors);
      var visit := VisitTask(heap, voc, t, ancestors);
      forall child <- visit.children ensures !child.Finding? { FindingsAreWarnings(heap, voc, t, ancestors, child); }
      if forall child <- visit.children :: child.Extension? { PropertyUntouched(heap, voc, gone, t, ancestors); }
      PropertiesAgree(heap, nodes, tr, gone, voc, t, t', ancestors, ancestors');
  }

  /** Children lie below the containers open around them. */
  lemma ChildIsLower(heap: Heap, voc: Vocabulary, t: Task, ancestors: set<nat>, child: Task)
    requires child in VisitTask(heap, voc, t, ancestors).children && !child.Finding?
    ensures !t.Finding? && Above(t) <= Above(child)
    ensures VisitTask(heap, voc, t, ancestors).opens.Some? ==> |OpenPath(t)| < Above(child)
  {
    hide CheckLeaf, Omittable, Aliased, CheckKeywords, CheckScalar, IsJsonLiteral, FirstAlien, CountValues, EnterRecord;
    if t.Property? { PropertyChildShape(heap, voc, t, ancestors, child); }
  }

  ghost predicate Ready(heap: Heap, voc: Vocabulary, tr: Trace, gone: set<FieldPath>, t: Task, ancestors: set<nat>,
                        ancestors': set<nat>)
  {
    && Bounded(t) && AncestorsAbove(tr, t, ancestors')
    && Clean(Walk(heap, voc, t, ancestors).0)
    && Accounts(gone, t, Walk(heap, voc, t, ancestors).0)
  }

  lemma AncestorsStayAbove(heap: Heap, voc: Vocabulary, tr: Trace, t: Task, ancestors: set<nat>, ancestors': set<nat>,
                           container: Option<nat>, child: Task)
    requires AncestorsAbove(tr, t, ancestors') && !t.Finding?
    requires child in VisitTask(heap, voc, t, ancestors).children
    requires container.Some? ==>
               VisitTask(heap, voc, t, ancestors).opens.Some? && container.value in tr
                 && tr[container.value].place == OpenPath(t)
    ensures AncestorsAbove(tr, child, ancestors' + if container.Some? then {container.value} else {})
  {
    hide VisitTask, OpenPath;
    if !child.Finding? { ChildIsLower(heap, voc, t, ancestors, child); }
  }

  lemma {:induction false} LeftOutWalk(heap: Heap, voc: Vocabulary, gone: set<FieldPath>, t: Task, ancestors: set<nat>)
    requires Bounded(t) && LeavesOut(heap, voc, t) && OpenPath(t) in gone
    ensures Kept(Walk(heap, voc, t, ancestors).0, gone) == []
  {
    hide CheckLeaf, Omittable, Aliased, VisitReferences, VisitExtension;
    var visit := VisitTask(heap, voc, t, ancestors);
    assert visit.children == [] && forall e <- visit.events :: PathOf(e) == OpenPath(t);
    hide VisitTask;
    assert Walk(heap, voc, t, ancestors).0 == visit.events + [] == visit.events;
    NoneKept(visit.events, gone);
  }

  /** The walk of the preview repeats the walk of the document, without the events about removed fields. */
  lemma {:induction false} Simulated(heap: Heap, nodes: Heap, tr: Trace, gone: set<FieldPath>, voc: Vocabulary,
                                     t: Task, t': Task, ancestors: set<nat>, ancestors': set<nat>)
    requires Closed(heap) && IsPreview(heap, nodes, tr, gone)
    requires Ready(heap, voc, tr, gone, t, ancestors, ancestors') && Related(tr, gone, t, t') && Bounded(t')
             && !LeftOut(gone, t)
    ensures Walk(nodes, voc, t', ancestors').0 == Kept(Walk(heap, voc, t, ancestors).0, gone)
    decreases Room(t) + 1, 0
  {
    hide IsPreview, Closed, VisitTask, WalkAll, Related, LeavesOut, Matched, Accounts, Clean, Bounded, Room, LeftOut,
         Kept;
    var visit, visit' := VisitTask(heap, voc, t, ancestors), VisitTask(nodes, voc, t', ancestors');
    var inner, inner' := ancestors + Opened(visit), ancestors' + Opened(visit');
    VisitsAgree(heap, nodes, tr, gone, voc, t, t', ancestors, ancestors');
    RelatedRoom(tr, gone, t, t');
    CleanVisit(heap, voc, t, ancestors);
    ChildrenHaveLessRoom(heap, voc, t, ancestors);
    ChildrenHaveLessRoom(nodes, voc, t', ancestors');
    forall child <- visit.children ensures Ready(heap, voc, tr, gone, child, inner, inner') {
      ChildAccounts(heap, voc, gone, t, ancestors, child);
      AncestorsStayAbove(heap, voc, tr, t, ancestors, ancestors', visit'.opens, child);
    }
    var below := WalkAll(heap, voc, visit.children, inner, Room(t)).0;
    var below' := WalkAll(nodes, voc, visit'.children, inner', Room(t')).0;
    assert Walk(heap, voc, t, ancestors).0 == visit.events + below;
    assert Walk(nodes, voc, t', ancestors').0 == visit'.events + below';
    hide Walk, Ready;
    SimulatedAll(heap, nodes, tr, gone, voc, visit.children, visit'.children, inner, inner', Room(t));
    KeptConcat(visit.events, below, gone);
    AllKept(visit.events, gone);
  }

  lemma {:induction false} SimulatedAll(heap: Heap, nodes: Heap, tr: Trace, gone: set<FieldPath>, voc: Vocabulary,
                                        tasks: seq<Task>, tasks': seq<Task>, ancestors: set<nat>, ancestors': set<nat>,
                                          room: nat)
    requires Closed(heap) && IsPreview(heap, nodes, tr, gone) && Matched(tr, gone, tasks, tasks')
    requires forall t <- tasks :: Bounded(t) && Room(t) < room && Ready(heap, voc, tr, gone, t, ancestors, ancestors')
    requires forall t <- tasks' :: Bounded(t) && Room(t) < room
    ensures WalkAll(nodes, voc, tasks', ancestors', room).0 == Kept(WalkAll(heap, voc, tasks, ancestors, room).0, gone)
    decreases room, |tasks|
  {
    hide IsPreview, Closed, Related, Bounded, Room, LeftOut, Walk, Kept, Ready, LeavesOut;
    if tasks == [] {
      AllKept([], gone);
    } else {
      var first, rest := Walk(heap, voc, tasks[0], ancestors).0, WalkAll(heap, voc, tasks[1..], ancestors, room).0;
      KeptConcat(first, rest, gone);
      if LeftOut(gone, tasks[0]) {
        FirstIsLeftOut(heap, voc, tr, gone, tasks[0], ancestors, ancestors');
        SimulatedAll(heap, nodes, tr, gone, voc, tasks[1..], tasks', ancestors, ancestors', room);
        assert [] + Kept(rest, gone) == Kept(rest, gone);
      } else {
        Simulated(heap, nodes, tr, gone, voc, tasks[0], tasks'[0], ancestors, ancestors');
        SimulatedAll(heap, nodes, tr, gone, voc, tasks[1..], tasks'[1..], ancestors, ancestors', room);
      }
    }
  }

  lemma FirstIsLeftOut(heap: Heap, voc: Vocabulary, tr: Trace, gone: set<FieldPath>, t: Task, ancestors: set<nat>,
                       ancestors': set<nat>)
    requires Ready(heap, voc, tr, gone, t, ancestors, ancestors') && LeftOut(gone, t) && Bounded(t)
    ensures Kept(Walk(heap, voc, t, ancestors).0, gone) == []
  {
    hide Walk, LeavesOut, Accounts, Kept;
    GoneWhenLeftOut(heap, voc, gone, t, ancestors);
    LeftOutWalk(heap, voc, gone, t, ancestors);
  }
}
