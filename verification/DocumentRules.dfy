/**
 * The rules for one value of a document, apart from how the checker moves through the document: how
 * a document is entered, and what each kind of property accepts.  What depends on the vocabulary
 * itself (contexts, types, property tables, the lexical checks) is a parameter.
 */
module DocumentRules {
  import opened Wrappers
  import opened Diagnostics
  import opened DocumentGraph

  type Problem = r: Reason | r.Severity() == Error witness NonJsonValue

  /** A lexical check of one scalar. */
  datatype Check =
    | Reference | Text(plain: bool) | DateTime | Count
    | LinkText(property: string) | Relation | LanguageTag

  /** What a supported property holds. */
  datatype Rule =
    | Single(check: Check)                                    // at most one non-null value
    | Many(check: Check)                                      // a value or a flat list
    | LanguageMap(plain: bool)
    | Identifier
    | NoObject                                                // `object` of an intransitive activity
    | References(navigation: bool, range: Option<nat>, decoder: Option<nat>)
    | Unchecked

  datatype Plan = Opaque | Outside | Incompatible | Inapplicable | Checked(rule: Rule)

  datatype ContextReading =
    | Understood(context: nat)
    | Unusable(at: FieldPath, problem: Problem, more: seq<(FieldPath, Problem)>)

  /** The vocabulary tables and lexical checks; contexts and types are opaque tokens. */
  datatype Vocabulary = Vocabulary(
    standard: nat,
    readContext: (Json, Option<nat>) -> ContextReading,
    names: (nat, string) -> bool,                 // whether a source key spells `type` under a context
    readType: (nat, string) -> Option<nat>,
    within: (nat, nat) -> bool,
    plan: (nat, nat, string) -> Plan,
    group: (nat, nat, string) -> Option<string>,  // the IRI of a functional property
    content: (Check, Value) -> Option<Problem>)

  function At(path: FieldPath, part: PathPart): FieldPath { path + [part] }

  // ------------------------------------------------------------ leaves

  /** Concatenates `check` over the entries from position `from` on. */
  function OverItems(items: seq<Value>, from: nat, check: (nat, Value) -> seq<Diagnostic>): seq<Diagnostic>
    decreases |items| - from
  {
    if from >= |items| then [] else check(from, items[from]) + OverItems(items, from + 1, check)
  }

  function OverKeys(keys: seq<string>, check: string -> seq<Diagnostic>): seq<Diagnostic> {
    if keys == [] then [] else check(keys[0]) + OverKeys(keys[1..], check)
  }

  function FirstAlien(keys: seq<string>, fields: map<string, Value>): Option<string> {
    if keys == [] then None
    else if keys[0] in fields && fields[keys[0]].Alien? then Some(keys[0])
    else FirstAlien(keys[1..], fields)
  }

  function Found(problem: Option<Problem>, path: FieldPath): seq<Diagnostic> {
    if problem.None? then [] else [Diagnostic(problem.value, path)]
  }

  /** A scalar position: containers and scalars of another type are refused before their content matters. */
  function CheckScalar(heap: Heap, voc: Vocabulary, check: Check, v: Value, path: FieldPath): seq<Diagnostic> {
    if v.Null? && !check.LanguageTag? then []
    else if check.Text? then CheckText(heap, voc, check, v, path)
    else if v.Ref? && check.Reference? then [Diagnostic(UnsupportedValueForm, path)]
    else if (check.Count? && v.Num?) || (!check.Count? && v.Str?) then Found(voc.content(check, v), path)
    else [Diagnostic(InvalidValueShape, path)]
  }

  function CheckText(heap: Heap, voc: Vocabulary, check: Check, v: Value, path: FieldPath): seq<Diagnostic>
    requires check.Text?
  {
    if v.Str? then Found(voc.content(check, v), path)
    else if !IsRecord(heap, v) then [Diagnostic(InvalidValueShape, path)]
    else
      var node := heap[v.id];
      var alien := FirstAlien(node.keys, node.fields);
      if alien.Some? then [Diagnostic(NonJsonValue, At(path, Key(alien.value)))]
      else if "@value" !in node.fields then [Diagnostic(UnsupportedValueForm, path)]
      else OverKeys(node.keys, (key: string) => CheckTextField(voc, check, node, key, At(path, Key(key))))
  }

  function CheckTextField(voc: Vocabulary, check: Check, node: Node, key: string, path: FieldPath): seq<Diagnostic> {
    if !node.Record? || key !in node.fields then []
    else if key == "@value" then
      if node.fields[key].Str? then Found(voc.content(check, node.fields[key]), path)
      else [Diagnostic(InvalidValueShape, path)]
    else if key == "@language" then
      if node.fields[key].Str? then Found(voc.content(LanguageTag, node.fields[key]), path)
      else [Diagnostic(InvalidValueShape, path)]
    else [Diagnostic(UnsupportedValueForm, path)]
  }

  function CheckEntry(heap: Heap, voc: Vocabulary, check: Check, v: Value, path: FieldPath): seq<Diagnostic> {
    if v.Null? then []
    else if v.Alien? then [Diagnostic(NonJsonValue, path)]
    else if IsList(heap, v) then [Diagnostic(UnsupportedValueForm, path)]
    else CheckScalar(heap, voc, check, v, path)
  }

  /** The number of non-null values a property supplies. */
  function CountValues(heap: Heap, v: Value): nat {
    if IsList(heap, v) then NonNull(heap[v.id].items) else if v.Null? then 0 else 1
  }

  function NonNull(items: seq<Value>): nat {
    if items == [] then 0 else (if items[0].Null? then 0 else 1) + NonNull(items[1..])
  }

  function CheckSingle(heap: Heap, voc: Vocabulary, check: Check, v: Value, path: FieldPath): seq<Diagnostic> {
    if !IsList(heap, v) then CheckScalar(heap, voc, check, v, path)
    else if heap[v.id].items == [] then [Diagnostic(UnsupportedValueForm, path)]
    else
      (if CountValues(heap, v) > 1 then [Diagnostic(InvalidMultiplicity, path)] else [])
      + OverItems(heap[v.id].items, 0, (i: nat, item: Value) => CheckEntry(heap, voc, check, item, At(path, Index(i))))
  }

  function CheckMany(heap: Heap, voc: Vocabulary, check: Check, v: Value, path: FieldPath): seq<Diagnostic> {
    if !IsList(heap, v) then CheckScalar(heap, voc, check, v, path)
    else if heap[v.id].items == [] then [Diagnostic(UnsupportedValueForm, path)]
    else OverItems(heap[v.id].items, 0, (i: nat, item: Value) => CheckEntry(heap, voc, check, item, At(path, Index(i))))
  }

  function CheckLanguageMap(heap: Heap, voc: Vocabulary, plain: bool, v: Value, path: FieldPath): seq<Diagnostic> {
    if v.Null? then []
    else if !IsRecord(heap, v) then [Diagnostic(InvalidValueShape, path)]
    else
      var node := heap[v.id];
      var alien := FirstAlien(node.keys, node.fields);
      if alien.Some? then [Diagnostic(NonJsonValue, At(path, Key(alien.value)))]
      else OverKeys(node.keys, (key: string) => CheckTranslation(voc, plain, node, key, At(path, Key(key))))
  }

  function CheckTranslation(voc: Vocabulary, plain: bool, node: Node, key: string, path: FieldPath): seq<Diagnostic> {
    Found(voc.content(LanguageTag, Str(key)), path)
    + (if !node.Record? || key !in node.fields || node.fields[key].Null? then []
       else if node.fields[key].Str? then Found(voc.content(Text(plain), node.fields[key]), path)
       else [Diagnostic(InvalidValueShape, path)])
  }

  function CheckNoObject(heap: Heap, v: Value, path: FieldPath): seq<Diagnostic> {
    if v.Null? then []
    else if !IsList(heap, v) then [Diagnostic(PropertyNotApplicable, path)]
    else if heap[v.id].items == [] then [Diagnostic(UnsupportedValueForm, path)]
    else
      OverItems(heap[v.id].items, 0, (i: nat, item: Value) =>
        if item.Null? then []
        else if item.Alien? then [Diagnostic(NonJsonValue, At(path, Index(i)))]
        else if IsList(heap, item) then [Diagnostic(UnsupportedValueForm, At(path, Index(i)))]
        else [Diagnostic(PropertyNotApplicable, At(path, Index(i)))])
  }

  /** What a property without embedded documents reports. */
  function CheckLeaf(heap: Heap, voc: Vocabulary, rule: Rule, v: Value, path: FieldPath): seq<Diagnostic>
    requires !rule.References?
  {
    match rule
    case Single(check) => CheckSingle(heap, voc, check, v, path)
    case Many(check) => CheckMany(heap, voc, check, v, path)
    case LanguageMap(plain) => CheckLanguageMap(heap, voc, plain, v, path)
    case Identifier =>
      if v.Str? then Found(voc.content(Reference, v), path) else [Diagnostic(InvalidValueShape, path)]
    case NoObject => CheckNoObject(heap, v, path)
    case Unchecked => if v.Null? then [] else [Diagnostic(UnsupportedProperty, path)]
  }

  /** An empty list, or an identifier that is null or a list of nulls: the preview leaves it out. */
  predicate Omittable(heap: Heap, rule: Rule, v: Value) {
    && !rule.Unchecked?
    && if IsList(heap, v)
       then (heap[v.id].items == [] || rule.Identifier?) && (forall item <- heap[v.id].items :: item.Null?)
       else rule.Identifier? && v.Null?
  }

  /** Whether another spelling supplies a value for the same functional property. */
  predicate Aliased(heap: Heap, voc: Vocabulary, context: nat, kind: nat, fields: map<string, Value>, source: string)
    requires source in fields
  {
    && voc.group(context, kind, source).Some?
    && CountValues(heap, fields[source]) == 1
    && exists other <- fields ::
         && other != source && other != "@context"
         && voc.group(context, kind, other) == voc.group(context, kind, source)
         && CountValues(heap, fields[other]) > 0
  }

  // ------------------------------------------------------------ entering a document

  datatype Entrance =
    | Turned(findings: seq<Diagnostic>)
    | Entered(findings: seq<Diagnostic>, context: nat, kind: nat)

  const CONTEXT_DEPTH := 3

  /** What an unusable context at `path` reports. */
  function ContextFindings(path: FieldPath, at: FieldPath, problem: Problem,
                           more: seq<(FieldPath, Problem)>): (findings: seq<Diagnostic>)
    ensures |findings| == |more| + 1 && findings[0] == Diagnostic(problem, path + at)
    ensures forall i | 0 <= i < |more| :: findings[i + 1] == Diagnostic(more[i].1, path + more[i].0)
    ensures forall d <- findings :: d.reason.Severity() == Error
  {
    [Diagnostic(problem, path + at)]
        + seq(|more|, i requires 0 <= i < |more| => Diagnostic(more[i].1, path + more[i].0))
  }

  /** The interpreted context of a document: inherited, assumed, or read from its own `@context`. */
  function ReadContext(heap: Heap, voc: Vocabulary, fields: map<string, Value>, path: FieldPath, inherited: Option<nat>)
    : (reading: (seq<Diagnostic>, Option<nat>))
    ensures reading.1.None? ==> HasError(reading.0)
  {
    if "@context" !in fields then
      if inherited.Some? then ([], inherited)
      else ([Diagnostic(ImplicitActivityStreamsContext, At(path, Key("@context")))], Some(voc.standard))
    else
      match Unfold(heap, fields["@context"], CONTEXT_DEPTH)
      case None =>
        var findings := [Diagnostic(UnsupportedContextForm, At(path, Key("@context")))];
        assert findings[0] in findings;
        (findings, None)
      case Some(json) =>
        match voc.readContext(json, inherited)
        case Understood(context) => ([], Some(context))
        case Unusable(at, problem, more) =>
          var findings := ContextFindings(At(path, Key("@context")), at, problem, more);
          assert findings[0] in findings;
          (findings, None)
  }

  /** The source keys that spell `type`, in order. */
  function TypeKeys(voc: Vocabulary, context: nat, keys: seq<string>): (types: seq<string>)
    ensures forall key :: key in types <==> key in keys && key != "@context" && voc.names(context, key)
  {
    if keys == [] then []
    else
      (if keys[0] != "@context" && voc.names(context, keys[0]) then [keys[0]] else [])
      + TypeKeys(voc, context, keys[1..])
  }

  /** The document's single supported type, or the reason there is none. */
  function ReadType(heap: Heap, voc: Vocabulary, keys: seq<string>, fields: map<string, Value>, path: FieldPath,
                    context: nat)
    : (reading: (seq<Diagnostic>, Option<nat>))
    ensures reading.1.None? ==> HasError(reading.0)
    ensures reading.1.Some? ==> reading.0 == []
  {
    var types := TypeKeys(voc, context, keys);
    if |types| > 1 then
      var findings :=
        seq(|types|, i requires 0 <= i < |types| => Diagnostic(UnsupportedValueForm, At(path, Key(types[i]))));
      assert findings[0] in findings;
      (findings, None)
    else
      var source := if types == [] then "type" else types[0];
      var declared := if source in fields then fields[source] else Null;
      var kind := if declared.Str? then voc.readType(context, declared.s) else None;
      if kind.Some? then ([], kind)
      else
        var reason :=
          if IsList(heap, declared) then UnsupportedValueForm
          else if declared.Null? || declared.Str? then UnsupportedType
          else InvalidValueShape;
        var findings := [Diagnostic(reason, At(path, Key(source)))];
        assert findings[0] in findings;
        (findings, None)
  }

  /** Reads a record's context and type, and compares the type with what its place accepts. */
  function EnterRecord(heap: Heap, voc: Vocabulary, node: Node, path: FieldPath, inherited: Option<nat>,
                       range: Option<nat>, decoder: Option<nat>): (entrance: Entrance)
    requires node.Record?
    ensures entrance.Turned? ==> HasError(entrance.findings)
  {
    var (contextFindings, context) := ReadContext(heap, voc, node.fields, path, inherited);
    if context.None? then Turned(contextFindings)
    else
      var (typeFindings, kind) := ReadType(heap, voc, node.keys, node.fields, path, context.value);
      if kind.None? then
        assert forall d <- typeFindings :: d in contextFindings + typeFindings;
        Turned(contextFindings + typeFindings)
      else if range.Some? && !voc.within(kind.value, range.value) then
        var findings := contextFindings + [Diagnostic(InvalidValueShape, path)];
        assert Diagnostic(InvalidValueShape, path) in findings;
        Turned(findings)
      else
        Entered(contextFindings
                + (if decoder.Some? && !voc.within(kind.value, decoder.value)
                   then [Diagnostic(UnsupportedValueForm, path)] else []),
                context.value, kind.value)
  }
}
