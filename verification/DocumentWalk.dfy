/**
 * The depth-first check of a document: a recursive definition, and the explicit work stack the
 * checker runs instead, with a set of the containers that are open.
 */
module DocumentWalk {
  import opened Wrappers
  import opened Diagnostics
  import opened DocumentGraph
  import opened DocumentRules

  const MAXIMUM_PATH_DEPTH := 64

  datatype Task =
    | Extension(v: Value, path: FieldPath, keywords: bool)
    | Document(v: Value, path: FieldPath, inherited: Option<nat>, range: Option<nat>, decoder: Option<nat>)
    | Property(doc: nat, path: FieldPath, context: nat, kind: nat, source: string)
    | Embedded(v: Value, path: FieldPath, context: nat, range: Option<nat>, decoder: Option<nat>)
    | Finding(d: Diagnostic)

  /** What checking produces, in order: a diagnostic, or the omission of a field of the preview. */
  datatype Event = Reported(d: Diagnostic) | Proposed(path: FieldPath, before: Value)

  /** The effect of running one task: events, the container it opens, and the tasks it leaves behind. */
  datatype Visit = Visit(events: seq<Event>, opens: Option<nat>, children: seq<Task>)

  function Reports(findings: seq<Diagnostic>): (events: seq<Event>)
    ensures |events| == |findings| && forall i | 0 <= i < |findings| :: events[i] == Reported(findings[i])
  {
    seq(|findings|, i requires 0 <= i < |findings| => Reported(findings[i]))
  }

  function ReportedIn(events: seq<Event>): seq<Diagnostic> {
    if events == [] then []
    else (if events[0].Reported? then [events[0].d] else []) + ReportedIn(events[1..])
  }

  function ProposedIn(events: seq<Event>): seq<Event> {
    if events == [] then []
    else (if events[0].Proposed? then [events[0]] else []) + ProposedIn(events[1..])
  }

  function Quiet(findings: seq<Diagnostic>): Visit {
    Visit(Reports(findings), None, [])
  }

  // ------------------------------------------------------------ one task

  predicate IsJsonLiteral(heap: Heap, fields: map<string, Value>) {
    "@type" in fields
    && (fields["@type"] == Str("@json")
        || (IsList(heap, fields["@type"]) && heap[fields["@type"].id].items == [Str("@json")]))
  }

  /** Shapes of explicit JSON-LD keywords inside opaque data. */
  function CheckKeywords(heap: Heap, fields: map<string, Value>, path: FieldPath): seq<Diagnostic> {
    (if "@id" in fields && !fields["@id"].Str? then [Diagnostic(InvalidValueShape, At(path, Key("@id")))] else [])
    + (if "@type" !in fields || fields["@type"].Str? then []
       else if IsList(heap, fields["@type"]) then
         OverItems(heap[fields["@type"].id].items, 0, (i: nat, item: Value) =>
           if item.Str? then [] else [Diagnostic(InvalidValueShape, path + [Key("@type"), Index(i)])])
       else [Diagnostic(InvalidValueShape, At(path, Key("@type")))])
    + (if "@value" in fields && "@language" in fields && !fields["@language"].Null? then
         (if fields["@language"].Str? then [] else [Diagnostic(InvalidValueShape, At(path, Key("@language")))])
         + (if fields["@value"].Null? || fields["@value"].Str? then []
            else [Diagnostic(InvalidValueShape, At(path, Key("@value")))])
       else [])
  }

  function VisitExtension(heap: Heap, v: Value, path: FieldPath, keywords: bool, ancestors: set<nat>): Visit {
    if |path| > MAXIMUM_PATH_DEPTH then Quiet([Diagnostic(ProcessingLimitExceeded, path)])
    else if v.Alien? then Quiet([Diagnostic(NonJsonValue, path)])
    else if !v.Ref? || v.id !in heap then Quiet([])
    else if v.id in ancestors then Quiet([Diagnostic(NonJsonValue, path)])
    else
      match heap[v.id]
      case List(items) =>
        Visit([], Some(v.id),
              seq(|items|, i requires 0 <= i < |items| => Extension(items[i], At(path, Index(i)), keywords)))
      case Record(keys, fields) =>
        var alien := FirstAlien(keys, fields);
        if alien.Some? then
          Visit(Reports([Diagnostic(NonJsonValue, At(path, Key(alien.value)))]), Some(v.id), [])
        else
          Visit(if keywords then Reports(CheckKeywords(heap, fields, path)) else [], Some(v.id),
                seq(|keys|, i requires 0 <= i < |keys| =>
                  Extension(if keys[i] in fields then fields[keys[i]] else Null, At(path, Key(keys[i])),
                            keywords && !(IsJsonLiteral(heap, fields) && keys[i] == "@value"))))
  }

  /** The property tasks of a document: every key but its context and its type, in order. */
  function PropertyTasks(voc: Vocabulary, doc: nat, path: FieldPath, context: nat, kind: nat,
                         keys: seq<string>): (tasks: seq<Task>)
    ensures forall t <- tasks ::
      t.Property? && t.doc == doc && t.path == path && t.context == context && t.kind == kind
      && t.source in keys && t.source != "@context" && !voc.names(context, t.source)
    ensures forall key <- keys | key != "@context" && !voc.names(context, key) ::
      Property(doc, path, context, kind, key) in tasks
  {
    if keys == [] then []
    else
      (if keys[0] != "@context" && !voc.names(context, keys[0])
       then [Property(doc, path, context, kind, keys[0])] else [])
      + PropertyTasks(voc, doc, path, context, kind, keys[1..])
  }

  function VisitDocument(heap: Heap, voc: Vocabulary, v: Value, path: FieldPath, inherited: Option<nat>,
                         range: Option<nat>, decoder: Option<nat>, ancestors: set<nat>): Visit
  {
    if |path| > MAXIMUM_PATH_DEPTH then Quiet([Diagnostic(ProcessingLimitExceeded, path)])
    else if v.Ref? && v.id in ancestors then Quiet([Diagnostic(NonJsonValue, path)])
    else if v.Alien? then Quiet([Diagnostic(NonJsonValue, path)])
    else if !IsRecord(heap, v) then Quiet([Diagnostic(InvalidDocumentRoot, path)])
    else
      var node := heap[v.id];
      var alien := FirstAlien(node.keys, node.fields);
      if alien.Some? then Quiet([Diagnostic(NonJsonValue, At(path, Key(alien.value)))])
      else
        match EnterRecord(heap, voc, node, path, inherited, range, decoder)
        case Turned(findings) => Quiet(findings)
        case Entered(findings, context, kind) =>
          Visit(Reports(findings), Some(v.id), PropertyTasks(voc, v.id, path, context, kind, node.keys))
  }

  function EmbeddedTasks(items: seq<Value>, from: nat, nulls: bool, path: FieldPath, context: nat,
                         range: Option<nat>, decoder: Option<nat>): (tasks: seq<Task>)
    ensures forall t <- tasks :: t.Embedded? && |t.path| == |path| + 1 && t.v in items && t.context == context
    ensures forall t <- tasks :: t.Embedded? && t.range == range && t.decoder == decoder
    ensures forall i | from <= i < |items| && (nulls || !items[i].Null?) ::
      Embedded(items[i], At(path, Index(i)), context, range, decoder) in tasks
    decreases |items| - from
  {
    if from >= |items| then []
    else
      (if items[from].Null? && !nulls then []
       else [Embedded(items[from], At(path, Index(from)), context, range, decoder)])
      + EmbeddedTasks(items, from + 1, nulls, path, context, range, decoder)
  }

  /** The values of a reference property, each checked in its turn. */
  function VisitReferences(heap: Heap, rule: Rule, v: Value, path: FieldPath, context: nat): Visit
    requires rule.References?
  {
    if v.Null? then Quiet([])
    else if !IsList(heap, v) then Visit([], None, [Embedded(v, path, context, rule.range, rule.decoder)])
    else if heap[v.id].items == [] then Quiet([Diagnostic(UnsupportedValueForm, path)])
    else
      Visit([], None,
            (if rule.navigation && CountValues(heap, v) > 1 then [Finding(Diagnostic(InvalidMultiplicity, path))]
             else [])
            + EmbeddedTasks(heap[v.id].items, 0, !rule.navigation, path, context, rule.range, rule.decoder))
  }

  function Prefixed(events: seq<Event>, visit: Visit): Visit {
    visit.(events := events + visit.events)
  }

  function VisitProperty(heap: Heap, voc: Vocabulary, t: Task, ancestors: set<nat>): Visit
    requires t.Property?
  {
    if t.doc !in heap || !heap[t.doc].Record? || t.source !in heap[t.doc].fields then Quiet([])
    else
      var fields := heap[t.doc].fields;
      var v := fields[t.source];
      var path := At(t.path, Key(t.source));
      match voc.plan(t.context, t.kind, t.source)
      case Opaque =>
        Prefixed([Reported(Diagnostic(ExtensionPropertyUnchecked, path))],
                 VisitExtension(heap, v, path, true, ancestors))
      case Outside => Quiet([Diagnostic(UnsupportedProperty, path)])
      case Incompatible => Quiet([Diagnostic(UnsupportedValueForm, path)])
      case Inapplicable => Quiet(if v.Null? then [] else [Diagnostic(PropertyNotApplicable, path)])
      case Checked(rule) =>
        var alias := if Aliased(heap, voc, t.context, t.kind, fields, t.source)
                     then [Reported(Diagnostic(InvalidMultiplicity, path))] else [];
        if Omittable(heap, rule, v) then
          var reason := if IsList(heap, v) && heap[v.id].items == [] then EmptyPropertyList else AbsentIdentifier;
          Visit(alias + [Reported(Diagnostic(reason, path)), Proposed(path, v)], None, [])
        else if rule.References? then Prefixed(alias, VisitReferences(heap, rule, v, path, t.context))
        else Prefixed(alias, Quiet(CheckLeaf(heap, voc, rule, v, path)))
  }

  function VisitEmbedded(heap: Heap, voc: Vocabulary, t: Task, ancestors: set<nat>): Visit
    requires t.Embedded?
  {
    if t.v.Alien? then Quiet([Diagnostic(NonJsonValue, t.path)])
    else if IsList(heap, t.v) then Quiet([Diagnostic(UnsupportedValueForm, t.path)])
    else if IsRecord(heap, t.v) then
      VisitDocument(heap, voc, t.v, t.path, Some(t.context), t.range, t.decoder, ancestors)
    else Quiet(CheckScalar(heap, voc, Reference, t.v, t.path))
  }

  function VisitTask(heap: Heap, voc: Vocabulary, t: Task, ancestors: set<nat>): Visit {
    match t
    case Extension(v, path, keywords) => VisitExtension(heap, v, path, keywords, ancestors)
    case Document(v, path, inherited, range, decoder) =>
      VisitDocument(heap, voc, v, path, inherited, range, decoder, ancestors)
    case Property(_, _, _, _, _) => VisitProperty(heap, voc, t, ancestors)
    case Embedded(_, _, _, _, _) => VisitEmbedded(heap, voc, t, ancestors)
    case Finding(d) => Quiet([d])
  }

  // ------------------------------------------------------------ the recursive walk

  /** Property tasks only arise within the depth limit. */
  predicate Bounded(t: Task) {
    t.Property? ==> |t.path| <= MAXIMUM_PATH_DEPTH
  }

  /** How much further a task can descend, whatever the graph looks like. */
  function Room(t: Task): nat {
    match t
    case Property(_, path, _, _, _) => if |path| > 70 then 0 else 2 * (70 - |path|)
    case Finding(_) => 0
    case _ => if |t.path| > 70 then 1 else 2 * (70 - |t.path|) + 1
  }

  lemma ChildrenHaveLessRoom(heap: Heap, voc: Vocabulary, t: Task, ancestors: set<nat>)
    requires Bounded(t)
    ensures forall child <- VisitTask(heap, voc, t, ancestors).children :: Bounded(child) && Room(child) < Room(t)
  {
    hide CheckLeaf, EnterRecord, Omittable, Aliased, CheckKeywords, CheckScalar, IsJsonLiteral, FirstAlien, CountValues;
    match t
    case Property(_, _, _, _, _) =>
    case Embedded(_, _, _, _, _) =>
    case Document(_, _, _, _, _) =>
    case Extension(_, _, _) =>
    case Finding(_) =>
  }

  /**
   * Checks a task and everything below it, depth first and in order.  `ancestors` are the containers
   * open around it.  Returns the events and the number of stack operations the walk stands for.
   */
  function Walk(heap: Heap, voc: Vocabulary, t: Task, ancestors: set<nat>): (seq<Event>, nat)
    requires Bounded(t)
    decreases Room(t) + 1, 0
  {
    var visit := VisitTask(heap, voc, t, ancestors);
    ChildrenHaveLessRoom(heap, voc, t, ancestors);
    var (events, steps) := WalkAll(heap, voc, visit.children, ancestors + Opened(visit), Room(t));
    (visit.events + events, 1 + (if visit.opens.Some? then 1 else 0) + steps)
  }

  function WalkAll(heap: Heap, voc: Vocabulary, tasks: seq<Task>, ancestors: set<nat>, room: nat): (seq<Event>, nat)
    requires forall t <- tasks :: Bounded(t) && Room(t) < room
    decreases room, |tasks|
  {
    if tasks == [] then ([], 0)
    else
      var (first, some) := Walk(heap, voc, tasks[0], ancestors);
      var (rest, more) := WalkAll(heap, voc, tasks[1..], ancestors, room);
      (first + rest, some + more)
  }

  function Opened(visit: Visit): set<nat> {
    if visit.opens.Some? then {visit.opens.value} else {}
  }

  /** Everything the check of a whole document reports and proposes. */
  function Findings(heap: Heap, voc: Vocabulary, root: Value): seq<Event> {
    Walk(heap, voc, Document(root, [], None, None, None), {}).0
  }
}
