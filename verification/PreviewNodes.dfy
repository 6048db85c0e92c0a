/** Where nothing was removed, the preview passes the same checks as the document it was cloned from. */
module PreviewNodes {
  import opened Diagnostics
  import opened DocumentGraph
  import opened DocumentRules
  import opened OpenContainers
  import opened Preview
  import opened Omission

  /** No field at or below `path` was removed. */
  ghost predicate Untouched(gone: set<FieldPath>, path: FieldPath) {
    forall p <- gone :: !Prefix(path, p)
  }

  /** The copy `c` has every entry of its original. */
  ghost predicate Exact(heap: Heap, nodes: Heap, tr: Trace, c: nat) {
    && c in tr && c in nodes && tr[c].source in heap
    && match heap[tr[c].source]
       case List(items) =>
         nodes[c].List? && |nodes[c].items| == |items|
         && (forall i | 0 <= i < |items| :: Like(tr, items[i], nodes[c].items[i], tr[c].place + [Index(i)]))
       case Record(keys, fields) =>
         nodes[c].Record? && nodes[c].keys == keys && nodes[c].fields.Keys == fields.Keys
         && (forall key <- fields :: Like(tr, fields[key], nodes[c].fields[key], tr[c].place + [Key(key)]))
  }

  lemma UntouchedBelow(gone: set<FieldPath>, path: FieldPath, part: PathPart)
    requires Untouched(gone, path)
    ensures Untouched(gone, path + [part]) && path + [part] !in gone
  {
    forall p <- gone ensures !Prefix(path + [part], p) && p != path + [part] {
      assert !Prefix(path, p);
      if |path| < |p| { assert p[..|path| + 1][..|path|] == p[..|path|]; }
      assert (path + [part])[..|path|] == path;
    }
  }

  lemma {:induction false} NoneGone(keys: seq<string>, path: FieldPath, gone: set<FieldPath>)
    requires forall key <- keys :: path + [Key(key)] !in gone
    ensures Remaining(keys, path, gone) == keys
  {
    if keys != [] { NoneGone(keys[1..], path, gone); }
  }

  lemma UntouchedIsExact(heap: Heap, nodes: Heap, tr: Trace, gone: set<FieldPath>, c: nat)
    requires IsPreview(heap, nodes, tr, gone) && c in nodes && Untouched(gone, tr[c].place)
    ensures Exact(heap, nodes, tr, c)
  {
    hide Like, Untouched, Separated;
    assert Trimmed(heap, nodes, tr, gone, c);
    forall part: PathPart ensures tr[c].place + [part] !in gone { UntouchedBelow(gone, tr[c].place, part); }
    if heap[tr[c].source].Record? {
      NoneGone(heap[tr[c].source].keys, tr[c].place, gone);
      assert nodes[c].fields.Keys == heap[tr[c].source].fields.Keys;
    }
  }

  lemma SameKind(heap: Heap, nodes: Heap, tr: Trace, gone: set<FieldPath>, v: Value, v': Value, path: FieldPath)
    requires IsPreview(heap, nodes, tr, gone) && Like(tr, v, v', path)
    ensures IsList(heap, v) == IsList(nodes, v') && IsRecord(heap, v) == IsRecord(nodes, v')
    ensures v.Ref? ==> v.id in heap && v'.id in nodes && tr[v'.id].source == v.id && tr[v'.id].place == path
  {
    hide Separated;
    if v.Ref? { assert Trimmed(heap, nodes, tr, gone, v'.id); }
  }

  // ------------------------------------------------------------ the same finite value

  lemma {:induction false} UntouchedUnfold(heap: Heap, nodes: Heap, tr: Trace, gone: set<FieldPath>, v: Value,
                                           v': Value, path: FieldPath, depth: nat)
    requires IsPreview(heap, nodes, tr, gone) && Like(tr, v, v', path) && Untouched(gone, path)
    ensures Unfold(nodes, v', depth) == Unfold(heap, v, depth)
    decreases depth
  {
    hide IsPreview, Untouched, Trimmed;
    SameKind(heap, nodes, tr, gone, v, v', path);
    if v.Ref? && depth > 0 {
      UntouchedIsExactAt(heap, nodes, tr, gone, v'.id);
      match heap[v.id]
      case List(items) =>
        forall i | 0 <= i < |items|
          ensures Unfold(nodes, nodes[v'.id].items[i], depth - 1) == Unfold(heap, items[i], depth - 1) {
          UntouchedBelow(gone, path, Index(i));
          UntouchedUnfold(heap, nodes, tr, gone, items[i], nodes[v'.id].items[i], path + [Index(i)], depth - 1);
        }
        SameItems(heap, nodes, items, nodes[v'.id].items, depth - 1);
      case Record(keys, fields) =>
        forall key <- fields
          ensures Unfold(nodes, nodes[v'.id].fields[key], depth - 1) == Unfold(heap, fields[key], depth - 1) {
          UntouchedBelow(gone, path, Key(key));
          UntouchedUnfold(heap, nodes, tr, gone, fields[key], nodes[v'.id].fields[key], path + [Key(key)], depth - 1);
        }
        SameFields(heap, nodes, heap[v.id], nodes[v'.id], depth - 1);
    }
  }

  lemma UntouchedIsExactAt(heap: Heap, nodes: Heap, tr: Trace, gone: set<FieldPath>, c: nat)
    requires IsPreview(heap, nodes, tr, gone) && c in nodes && c in tr && Untouched(gone, tr[c].place)
    ensures Exact(heap, nodes, tr, c)
  {
    UntouchedIsExact(heap, nodes, tr, gone, c);
  }

  lemma SameItems(heap: Heap, nodes: Heap, items: seq<Value>, items': seq<Value>, depth: nat)
    requires |items| == |items'|
    requires forall i | 0 <= i < |items| :: Unfold(nodes, items'[i], depth) == Unfold(heap, items[i], depth)
    ensures UnfoldNode(nodes, List(items'), depth) == UnfoldNode(heap, List(items), depth)
  {
    hide Unfold;
    var one, two := UnfoldNode(heap, List(items), depth), UnfoldNode(nodes, List(items'), depth);
    assert (forall v <- items :: Unfold(heap, v, depth).Some?)
            <==> (forall i | 0 <= i < |items| :: Unfold(heap, items[i], depth).Some?);
    assert (forall v <- items' :: Unfold(nodes, v, depth).Some?)
            <==> (forall i | 0 <= i < |items'| :: Unfold(nodes, items'[i], depth).Some?);
    if one.Some? { assert one.value.items == two.value.items; }
  }

  lemma SameFields(heap: Heap, nodes: Heap, node: Node, node': Node, depth: nat)
    requires node.Record? && node'.Record? && node.fields.Keys == node'.fields.Keys
    requires forall key <- node.fields ::
               Unfold(nodes, node'.fields[key], depth) == Unfold(heap, node.fields[key], depth)
    ensures UnfoldNode(nodes, node', depth) == UnfoldNode(heap, node, depth)
  {
    hide Unfold;
    var one, two := UnfoldNode(heap, node, depth), UnfoldNode(nodes, node', depth);
    if one.Some? { assert one.value.fields == two.value.fields; }
  }

  // ------------------------------------------------------------ the same findings

  lemma {:induction false} SameOverItems(items: seq<Value>, items': seq<Value>, from: nat,
                                         check: (nat, Value) -> seq<Diagnostic>,
                                           check': (nat, Value) -> seq<Diagnostic>)
    requires |items| == |items'|
    requires forall i: nat | from <= i < |items| :: check(i, items[i]) == check'(i, items'[i])
    ensures OverItems(items, from, check) == OverItems(items', from, check')
    decreases |items| - from
  {
    if from < |items| { SameOverItems(items, items', from + 1, check, check'); }
  }

  lemma {:induction false} SameOverKeys(keys: seq<string>, check: string -> seq<Diagnostic>,
                                        check': string -> seq<Diagnostic>)
    requires forall key <- keys :: check(key) == check'(key)
    ensures OverKeys(keys, check) == OverKeys(keys, check')
  {
    if keys != [] { SameOverKeys(keys[1..], check, check'); }
  }

  lemma {:induction false} SameAlien(keys: seq<string>, fields: map<string, Value>, fields': map<string, Value>)
    requires forall key <- keys :: key in fields && key in fields' && fields[key].Alien? == fields'[key].Alien?
    ensures FirstAlien(keys, fields) == FirstAlien(keys, fields')
  {
    if keys != [] { SameAlien(keys[1..], fields, fields'); }
  }

  lemma {:induction false} SameNonNull(items: seq<Value>, items': seq<Value>)
    requires |items| == |items'| && forall i | 0 <= i < |items| :: items[i].Null? == items'[i].Null?
    ensures NonNull(items) == NonNull(items')
  {
    if items != [] { SameNonNull(items[1..], items'[1..]); }
  }

  /** A value and its untouched copy, two levels deep: all that the leaf checks look at. */
  ghost predicate Twin(heap: Heap, nodes: Heap, v: Value, v': Value) {
    && (if v.Ref? then v'.Ref? else v' == v)
    && IsList(heap, v) == IsList(nodes, v')
    && IsRecord(heap, v) == IsRecord(nodes, v')
  }

  ghost predicate TwinItems(heap: Heap, nodes: Heap, v: Value, v': Value) {
    IsList(heap, v) && IsList(nodes, v') ==>
      && |nodes[v'.id].items| == |heap[v.id].items|
      && (forall i | 0 <= i < |heap[v.id].items| ::
            Twin(heap, nodes, heap[v.id].items[i], nodes[v'.id].items[i])
            && TwinFields(heap, nodes, heap[v.id].items[i], nodes[v'.id].items[i]))
  }

  ghost predicate TwinFields(heap: Heap, nodes: Heap, v: Value, v': Value) {
    IsRecord(heap, v) && IsRecord(nodes, v') ==>
      && nodes[v'.id].keys == heap[v.id].keys && nodes[v'.id].fields.Keys == heap[v.id].fields.Keys
      && (forall key <- heap[v.id].keys :: key in heap[v.id].fields)
      && (forall key <- heap[v.id].fields :: Twin(heap, nodes, heap[v.id].fields[key], nodes[v'.id].fields[key]))
  }

  lemma LikeIsTwin(heap: Heap, nodes: Heap, tr: Trace, gone: set<FieldPath>, v: Value, v': Value, path: FieldPath)
    requires IsPreview(heap, nodes, tr, gone) && Like(tr, v, v', path)
    ensures Twin(heap, nodes, v, v')
  {
    hide IsPreview;
    SameKind(heap, nodes, tr, gone, v, v', path);
  }

  lemma LikeHasTwinFields(heap: Heap, nodes: Heap, tr: Trace, gone: set<FieldPath>, v: Value, v': Value,
                          path: FieldPath)
    requires Closed(heap) && IsPreview(heap, nodes, tr, gone) && Like(tr, v, v', path) && Untouched(gone, path)
    ensures TwinFields(heap, nodes, v, v')
  {
    hide IsPreview, Untouched, Twin;
    SameKind(heap, nodes, tr, gone, v, v', path);
    if IsRecord(heap, v) {
      assert WellFormed(heap, heap[v.id]);
      UntouchedIsExactAt(heap, nodes, tr, gone, v'.id);
      forall key <- heap[v.id].fields ensures Twin(heap, nodes, heap[v.id].fields[key], nodes[v'.id].fields[key]) {
        LikeIsTwin(heap, nodes, tr, gone, heap[v.id].fields[key], nodes[v'.id].fields[key], path + [Key(key)]);
      }
    }
  }

  lemma LikeHasTwinItems(heap: Heap, nodes: Heap, tr: Trace, gone: set<FieldPath>, v: Value, v': Value, path: FieldPath)
    requires Closed(heap) && IsPreview(heap, nodes, tr, gone) && Like(tr, v, v', path) && Untouched(gone, path)
    ensures TwinItems(heap, nodes, v, v')
  {
    hide IsPreview, Untouched, Twin, TwinFields, Closed;
    SameKind(heap, nodes, tr, gone, v, v', path);
    if IsList(heap, v) {
      UntouchedIsExactAt(heap, nodes, tr, gone, v'.id);
      var items, items' := heap[v.id].items, nodes[v'.id].items;
      forall i | 0 <= i < |items|
        ensures Twin(heap, nodes, items[i], items'[i]) && TwinFields(heap, nodes, items[i], items'[i]) {
        UntouchedBelow(gone, path, Index(i));
        LikeIsTwin(heap, nodes, tr, gone, items[i], items'[i], path + [Index(i)]);
        LikeHasTwinFields(heap, nodes, tr, gone, items[i], items'[i], path + [Index(i)]);
      }
    }
  }

  lemma TwinText(heap: Heap, nodes: Heap, voc: Vocabulary, check: Check, v: Value, v': Value, path: FieldPath)
    requires Twin(heap, nodes, v, v') && TwinFields(heap, nodes, v, v') && check.Text?
    ensures CheckText(nodes, voc, check, v', path) == CheckText(heap, voc, check, v, path)
  {
    hide OverKeys, FirstAlien, CheckTextField;
    if IsRecord(heap, v) {
      var node, node' := heap[v.id], nodes[v'.id];
      SameAlien(node.keys, node.fields, node'.fields);
      forall key <- node.keys
        ensures CheckTextField(voc, check, node, key, At(path, Key(key)))
                  == CheckTextField(voc, check, node', key, At(path, Key(key)))
      {
        TwinTextField(heap, nodes, voc, check, v, v', key, At(path, Key(key)));
      }
      SameOverKeys(node.keys,
                   (key: string) => CheckTextField(voc, check, node, key, At(path, Key(key))),
                   (key: string) => CheckTextField(voc, check, node', key, At(path, Key(key))));
    }
  }

  lemma TwinTextField(heap: Heap, nodes: Heap, voc: Vocabulary, check: Check, v: Value, v': Value, key: string,
                      path: FieldPath)
    requires IsRecord(heap, v) && IsRecord(nodes, v') && TwinFields(heap, nodes, v, v')
    ensures CheckTextField(voc, check, heap[v.id], key, path) == CheckTextField(voc, check, nodes[v'.id], key, path)
  {
  }

  lemma TwinScalar(heap: Heap, nodes: Heap, voc: Vocabulary, check: Check, v: Value, v': Value, path: FieldPath)
    requires Twin(heap, nodes, v, v') && TwinFields(heap, nodes, v, v')
    ensures CheckScalar(nodes, voc, check, v', path) == CheckScalar(heap, voc, check, v, path)
  {
    hide CheckText;
    if check.Text? { TwinText(heap, nodes, voc, check, v, v', path); }
  }

  lemma TwinEntry(heap: Heap, nodes: Heap, voc: Vocabulary, check: Check, v: Value, v': Value, path: FieldPath)
    requires Twin(heap, nodes, v, v') && TwinFields(heap, nodes, v, v')
    ensures CheckEntry(nodes, voc, check, v', path) == CheckEntry(heap, voc, check, v, path)
  {
    hide CheckScalar;
    TwinScalar(heap, nodes, voc, check, v, v', path);
  }

  lemma TwinCount(heap: Heap, nodes: Heap, v: Value, v': Value)
    requires Twin(heap, nodes, v, v') && TwinItems(heap, nodes, v, v')
    ensures CountValues(nodes, v') == CountValues(heap, v)
  {
    if IsList(heap, v) { SameNonNull(heap[v.id].items, nodes[v'.id].items); }
  }

  lemma TwinEntries(heap: Heap, nodes: Heap, voc: Vocabulary, check: Check, v: Value, v': Value, path: FieldPath)
    requires IsList(heap, v) && IsList(nodes, v') && TwinItems(heap, nodes, v, v')
    ensures OverItems(nodes[v'.id].items, 0,
                      (i: nat, item: Value) => CheckEntry(nodes, voc, check, item, At(path, Index(i))))
         == OverItems(heap[v.id].items, 0,
                      (i: nat, item: Value) => CheckEntry(heap, voc, check, item, At(path, Index(i))))
  {
    hide CheckEntry, OverItems, Twin, TwinFields;
    var items, items' := heap[v.id].items, nodes[v'.id].items;
    forall i: nat | i < |items|
      ensures CheckEntry(nodes, voc, check, items'[i], At(path, Index(i)))
                == CheckEntry(heap, voc, check, items[i], At(path, Index(i)))
    {
      TwinEntry(heap, nodes, voc, check, items[i], items'[i], At(path, Index(i)));
    }
    SameOverItems(items', items, 0,
                  (i: nat, item: Value) => CheckEntry(nodes, voc, check, item, At(path, Index(i))),
                  (i: nat, item: Value) => CheckEntry(heap, voc, check, item, At(path, Index(i))));
  }

  lemma TwinMap(heap: Heap, nodes: Heap, voc: Vocabulary, plain: bool, v: Value, v': Value, path: FieldPath)
    requires Twin(heap, nodes, v, v') && TwinFields(heap, nodes, v, v')
    ensures CheckLanguageMap(nodes, voc, plain, v', path) == CheckLanguageMap(heap, voc, plain, v, path)
  {
    hide OverKeys, FirstAlien, CheckTranslation;
    if IsRecord(heap, v) {
      var node, node' := heap[v.id], nodes[v'.id];
      SameAlien(node.keys, node.fields, node'.fields);
      forall key <- node.keys
        ensures CheckTranslation(voc, plain, node, key, At(path, Key(key)))
                  == CheckTranslation(voc, plain, node', key, At(path, Key(key)))
      {
        TwinTranslation(heap, nodes, voc, plain, v, v', key, At(path, Key(key)));
      }
      SameOverKeys(node.keys,
                   (key: string) => CheckTranslation(voc, plain, node, key, At(path, Key(key))),
                   (key: string) => CheckTranslation(voc, plain, node', key, At(path, Key(key))));
    }
  }

  lemma TwinTranslation(heap: Heap, nodes: Heap, voc: Vocabulary, plain: bool, v: Value, v': Value, key: string,
                        path: FieldPath)
    requires IsRecord(heap, v) && IsRecord(nodes, v') && TwinFields(heap, nodes, v, v')
    ensures CheckTranslation(voc, plain, heap[v.id], key, path) == CheckTranslation(voc, plain, nodes[v'.id], key, path)
  {
  }

  function NoObjectEntry(heap: Heap, path: FieldPath, i: nat, item: Value): seq<Diagnostic> {
    if item.Null? then []
    else if item.Alien? then [Diagnostic(NonJsonValue, At(path, Index(i)))]
    else if IsList(heap, item) then [Diagnostic(UnsupportedValueForm, At(path, Index(i)))]
    else [Diagnostic(PropertyNotApplicable, At(path, Index(i)))]
  }

  lemma NoObjectEntries(heap: Heap, v: Value, path: FieldPath)
    requires IsList(heap, v) && heap[v.id].items != []
    ensures CheckNoObject(heap, v, path)
         == OverItems(heap[v.id].items, 0, (i: nat, item: Value) => NoObjectEntry(heap, path, i, item))
  {
    var check := (i: nat, item: Value) =>
        if item.Null? then []
        else if item.Alien? then [Diagnostic(NonJsonValue, At(path, Index(i)))]
        else if IsList(heap, item) then [Diagnostic(UnsupportedValueForm, At(path, Index(i)))]
        else [Diagnostic(PropertyNotApplicable, At(path, Index(i)))];
    SameOverItems(heap[v.id].items, heap[v.id].items, 0, check,
                  (i: nat, item: Value) => NoObjectEntry(heap, path, i, item));
  }

  lemma TwinNoObject(heap: Heap, nodes: Heap, v: Value, v': Value, path: FieldPath)
    requires Twin(heap, nodes, v, v') && TwinItems(heap, nodes, v, v')
    ensures CheckNoObject(nodes, v', path) == CheckNoObject(heap, v, path)
  {
    if IsList(heap, v) && heap[v.id].items != [] {
      hide CheckNoObject;
      NoObjectEntries(heap, v, path);
      NoObjectEntries(nodes, v', path);
      SameOverItems(nodes[v'.id].items, heap[v.id].items, 0,
                    (i: nat, item: Value) => NoObjectEntry(nodes, path, i, item),
                    (i: nat, item: Value) => NoObjectEntry(heap, path, i, item));
    }
  }

  lemma TwinLeaf(heap: Heap, nodes: Heap, voc: Vocabulary, rule: Rule, v: Value, v': Value, path: FieldPath)
    requires Twin(heap, nodes, v, v') && TwinItems(heap, nodes, v, v') && TwinFields(heap, nodes, v, v')
             && !rule.References?
    ensures CheckLeaf(nodes, voc, rule, v', path) == CheckLeaf(heap, voc, rule, v, path)
  {
    hide CheckScalar, CheckEntry, CheckLanguageMap, CheckNoObject, OverItems, CountValues, TwinFields;
    match rule
    case Single(check) =>
      TwinScalar(heap, nodes, voc, check, v, v', path);
      TwinCount(heap, nodes, v, v');
      if IsList(heap, v) { TwinEntries(heap, nodes, voc, check, v, v', path); }
    case Many(check) =>
      TwinScalar(heap, nodes, voc, check, v, v', path);
      if IsList(heap, v) { TwinEntries(heap, nodes, voc, check, v, v', path); }
    case LanguageMap(plain) => TwinMap(heap, nodes, voc, plain, v, v', path);
    case NoObject => TwinNoObject(heap, nodes, v, v', path);
    case Identifier =>
    case Unchecked =>
  }
}
