/**
 * The context tables in the place where the rules for documents take contexts: what a vocabulary
 * built from them reads, and in which context the checker then checks each value.
 */
module ContextVocabulary {
  import opened Wrappers
  import opened Diagnostics
  import opened Definitions
  import opened DocumentGraph
  import opened DocumentRules
  import opened DocumentWalk
  import Inline = ContextTerms
  import Contexts = DocumentContexts

  /**
   * The tables, the order in which the names of an inline context are visited, and the numbers that
   * stand for term tables where the walk hands contexts on.
   */
  datatype Profile = Profile(
    tables: Contexts.Tables,
    order: set<string> -> seq<string>,
    number: Terms -> nat,
    table: nat -> Terms)
  {
    ghost predicate Valid() {
      && (forall keys, key :: key in order(keys) <==> key in keys)
      && (forall terms: Terms :: table(number(terms)) == terms)
    }

    function Numbered(terms: Option<Terms>): Option<nat> {
      if terms.Some? then Some(number(terms.value)) else None
    }

    function Named(context: Option<nat>): Option<Terms> {
      if context.Some? then Some(table(context.value)) else None
    }
  }

  // ------------------------------------------------------------ from JSON to contexts

  function FieldOf(json: Json): Inline.FieldValue {
    match json
    case JBool(b) => Inline.JBool(b)
    case JStr(s) => Inline.JString(s)
    case _ => Inline.JOther
  }

  function DefinitionOf(json: Json): Inline.Definition {
    match json
    case JStr(s) => Inline.Simple(s)
    case JObj(fields) => Inline.Expanded(map key | key in fields :: FieldOf(fields[key]))
    case JNull => Inline.Null
    case _ => Inline.Other
  }

  function EntryOf(profile: Profile, json: Json): (entry: Contexts.Entry)
    ensures profile.Valid() ==> entry.Valid()
  {
    match json
    case JStr(s) => Contexts.Named(s)
    case JObj(fields) =>
      Contexts.InlineTerms(map key | key in fields :: DefinitionOf(fields[key]), profile.order(fields.Keys))
    case JNull => Contexts.NullEntry
    case JArr(_) => Contexts.ListEntry
    case _ => Contexts.ScalarEntry
  }

  function ValueOf(profile: Profile, json: Json): (value: Contexts.ContextValue)
    ensures profile.Valid() ==> Contexts.ValidValue(Some(value))
  {
    match json
    case JArr(items) =>
      Contexts.Many(seq(|items|, i requires 0 <= i < |items| => Some(EntryOf(profile, items[i]))))
    case _ => Contexts.One(EntryOf(profile, json))
  }

  // ------------------------------------------------------------ the vocabulary

  function ReadJson(profile: Profile, json: Json, inherited: Option<nat>): ContextReading {
    var (terms, remarks) :=
      Contexts.ReadContext(profile.tables, Some(ValueOf(profile, json)), profile.Named(inherited));
    match terms
    case Some(own) => Understood(profile.number(own))
    case None =>
      Unusable(
        remarks[0].path, remarks[0].reason,
        seq(|remarks| - 1, i requires 0 <= i < |remarks| - 1 => (remarks[i + 1].path, remarks[i + 1].reason)))
  }

  /** A vocabulary with the contexts of the tables. */
  function WithContexts(voc: Vocabulary, profile: Profile): Vocabulary {
    voc.(standard := profile.number(profile.tables.Standard()),
         readContext := (json, inherited) => ReadJson(profile, json, inherited))
  }

  /** Whether the `@context` of a record, if it has one, is plain JSON of bounded depth. */
  predicate Readable(heap: Heap, fields: map<string, Value>) {
    "@context" in fields ==> Unfold(heap, fields["@context"], CONTEXT_DEPTH).Some?
  }

  function OwnContext(heap: Heap, profile: Profile, fields: map<string, Value>): (own: Option<Contexts.ContextValue>)
    requires Readable(heap, fields)
    ensures profile.Valid() ==> Contexts.ValidValue(own)
  {
    if "@context" !in fields then None
    else Some(ValueOf(profile, Unfold(heap, fields["@context"], CONTEXT_DEPTH).value))
  }

  /** The context of a record within a context: `None` where it has none, or one that is not understood. */
  ghost function ContextIn(heap: Heap, profile: Profile, fields: map<string, Value>,
                           inherited: Option<Terms>): Option<Terms>
  {
    if Readable(heap, fields) then Contexts.ContextOf(profile.tables, OwnContext(heap, profile, fields), inherited)
      else None
  }

  /** A value is understood as the context it means; otherwise the rules report the remarks on it. */
  lemma JsonIsReadAsContext(profile: Profile, json: Json, inherited: Option<Terms>, at: FieldPath)
    requires profile.Valid()
    ensures var (terms, remarks) := Contexts.ReadContext(profile.tables, Some(ValueOf(profile, json)), inherited);
            match ReadJson(profile, json, profile.Numbered(inherited))
            case Understood(context) => Some(context) == profile.Numbered(terms) && remarks == []
            case Unusable(place, problem, more) =>
                terms.None? && ContextFindings(at, place, problem, more) == Located(at, remarks)
  {
    hide Contexts.ReadValue, Contexts.ContextOf, Contexts.Covers, ValueOf;
    Contexts.ReadingIsMeaning(profile.tables, Some(ValueOf(profile, json)), inherited);
  }

  /**
   * Under such a vocabulary the rules for documents read every record in the context its `@context`
   * means, and report what the check of that context reports.
   */
  lemma RecordsReadTheirContext(heap: Heap, voc: Vocabulary, profile: Profile, fields: map<string, Value>,
                                path: FieldPath, inherited: Option<Terms>)
    requires profile.Valid()
    ensures var (findings, context) :=
            ReadContext(heap, WithContexts(voc, profile), fields, path, profile.Numbered(inherited));
            && context == profile.Numbered(ContextIn(heap, profile, fields, inherited))
            && (Readable(heap, fields) ==>
                  findings == Located(At(path, Key("@context")),
                                      Contexts.ReadContext(profile.tables, OwnContext(heap, profile, fields),
                                                           inherited).1))
  {
    hide Contexts.ContextOf, Contexts.ReadValue, Contexts.Covers, Unfold, ValueOf, ReadJson, Located, ContextFindings;
    var at := At(path, Key("@context"));
    NothingLocated(at);
    if Readable(heap, fields) {
      Contexts.ReadingIsMeaning(profile.tables, OwnContext(heap, profile, fields), inherited);
      if "@context" in fields {
        JsonIsReadAsContext(profile, Unfold(heap, fields["@context"], CONTEXT_DEPTH).value, inherited, at);
      } else {
        OneLocated(at, Diagnostic(ImplicitActivityStreamsContext, []));
      }
    }
  }

  // ------------------------------------------------------------ the context of every task

  /** The task works in the context `terms`; for a document that is the one it inherits. */
  ghost predicate WorksIn(profile: Profile, t: Task, terms: Option<Terms>) {
    match t
    case Document(_, _, inherited, _, _) => inherited == profile.Numbered(terms)
    case Property(_, _, context, _, _) => Some(context) == profile.Numbered(terms)
    case Embedded(_, _, context, _, _) => Some(context) == profile.Numbered(terms)
    case _ => true
  }

  /** The context of the tasks that a task leaves behind: documents replace it, all else passes it on. */
  ghost function ContextBelow(heap: Heap, profile: Profile, t: Task, terms: Option<Terms>): Option<Terms> {
    if (t.Document? || t.Embedded?) && IsRecord(heap, t.v)
    then ContextIn(heap, profile, heap[t.v.id].fields, terms) else terms
  }

  lemma RecordsAreEnteredInContext(heap: Heap, voc: Vocabulary, profile: Profile, node: Node, path: FieldPath,
                                   terms: Option<Terms>, range: Option<nat>, decoder: Option<nat>)
    requires profile.Valid() && node.Record?
    ensures var entrance :=
            EnterRecord(heap, WithContexts(voc, profile), node, path, profile.Numbered(terms), range, decoder);
            entrance.Entered? ==>
                Some(entrance.context) == profile.Numbered(ContextIn(heap, profile, node.fields, terms))
  {
    hide ContextIn, WithContexts, ReadContext, ReadType;
    RecordsReadTheirContext(heap, voc, profile, node.fields, path, terms);
  }

  lemma DocumentsPassTheirContextOn(
      heap: Heap, voc: Vocabulary, profile: Profile, v: Value, path: FieldPath, terms: Option<Terms>,
      range: Option<nat>, decoder: Option<nat>, ancestors: set<nat>)
    requires profile.Valid() && IsRecord(heap, v)
    ensures forall child <- VisitDocument(heap, WithContexts(voc, profile), v, path, profile.Numbered(terms), range,
                                          decoder, ancestors).children ::
              WorksIn(profile, child, ContextIn(heap, profile, heap[v.id].fields, terms))
  {
    hide ContextIn, WithContexts, EnterRecord, FirstAlien, profile.Numbered;
    RecordsAreEnteredInContext(heap, voc, profile, heap[v.id], path, terms, range, decoder);
  }

  lemma PropertiesPassTheirContextOn(heap: Heap, voc: Vocabulary, profile: Profile, t: Task, ancestors: set<nat>,
                                     terms: Option<Terms>)
    requires t.Property? && WorksIn(profile, t, terms)
    ensures forall child <- VisitTask(heap, voc, t, ancestors).children :: WorksIn(profile, child, terms)
  {
    hide CheckLeaf, CheckKeywords, FirstAlien, Aliased, Omittable, IsJsonLiteral, CountValues;
  }

  lemma ChildrenWorkInContext(heap: Heap, voc: Vocabulary, profile: Profile, t: Task, ancestors: set<nat>,
                              terms: Option<Terms>)
    requires profile.Valid() && WorksIn(profile, t, terms)
    ensures forall child <- VisitTask(heap, WithContexts(voc, profile), t, ancestors).children ::
              WorksIn(profile, child, ContextBelow(heap, profile, t, terms))
  {
    hide ContextIn, WithContexts, VisitProperty, CheckScalar;
    match t
    case Property(_, _, _, _, _) =>
      PropertiesPassTheirContextOn(heap, WithContexts(voc, profile), profile, t, ancestors, terms);
    case Document(v, path, _, range, decoder) =>
      if IsRecord(heap, v) {
        hide VisitDocument;
        DocumentsPassTheirContextOn(heap, voc, profile, v, path, terms, range, decoder, ancestors);
      }
    case Embedded(v, path, _, range, decoder) =>
      if IsRecord(heap, v) {
        hide VisitDocument;
        DocumentsPassTheirContextOn(heap, voc, profile, v, path, terms, range, decoder, ancestors);
      }
    case Extension(_, _, _) =>
    case Finding(_) =>
  }

  ghost predicate Lawful(profile: Profile, terms: Option<Terms>) {
    terms.Some? ==>
      && Contexts.Covers(terms.value, profile.tables.Standard())
      && Contexts.AllAdmissible(profile.tables, terms.value)
  }

  /** Every task of the walk below `t` works in the context that the documents around it mean. */
  ghost predicate AllWorkIn(heap: Heap, voc: Vocabulary, profile: Profile, t: Task, ancestors: set<nat>,
                            terms: Option<Terms>)
    requires Bounded(t)
    decreases Room(t)
  {
    var visit := VisitTask(heap, WithContexts(voc, profile), t, ancestors);
    ChildrenHaveLessRoom(heap, WithContexts(voc, profile), t, ancestors);
    && WorksIn(profile, t, terms) && Lawful(profile, terms)
    && forall child <- visit.children ::
         AllWorkIn(heap, voc, profile, child, ancestors + Opened(visit), ContextBelow(heap, profile, t, terms))
  }

  lemma {:induction false} TasksWorkInContext(
      heap: Heap, voc: Vocabulary, profile: Profile, t: Task, ancestors: set<nat>, terms: Option<Terms>)
    requires profile.Valid() && Bounded(t) && WorksIn(profile, t, terms) && Lawful(profile, terms)
    requires forall url <- profile.tables.bundled :: Contexts.AllAdmissible(profile.tables, profile.tables.bundled[url])
    ensures AllWorkIn(heap, voc, profile, t, ancestors, terms)
    decreases Room(t)
  {
    hide VisitTask, WorksIn, Contexts.ContextOf, Contexts.Covers, Contexts.AllAdmissible, Unfold;
    var visit := VisitTask(heap, WithContexts(voc, profile), t, ancestors);
    ChildrenHaveLessRoom(heap, WithContexts(voc, profile), t, ancestors);
    ChildrenWorkInContext(heap, voc, profile, t, ancestors, terms);
    var below := ContextBelow(heap, profile, t, terms);
    if (t.Document? || t.Embedded?) && IsRecord(heap, t.v) && Readable(heap, heap[t.v.id].fields) {
      var own := OwnContext(heap, profile, heap[t.v.id].fields);
      Contexts.ContextsCoverStandard(profile.tables, own, terms);
      Contexts.ContextsAreAdmissible(profile.tables, own, terms);
    }
    forall child <- visit.children
      ensures AllWorkIn(heap, voc, profile, child, ancestors + Opened(visit), below)
    {
      TasksWorkInContext(heap, voc, profile, child, ancestors + Opened(visit), below);
    }
  }

  /**
   * The check of a whole document checks every value in the context that the `@context` entries of the
   * objects around it mean, which holds the standard vocabulary and only terms the profile admits.
   */
  lemma DocumentsAreCheckedInContext(heap: Heap, voc: Vocabulary, profile: Profile, root: Value)
    requires profile.Valid()
    requires forall url <- profile.tables.bundled :: Contexts.AllAdmissible(profile.tables, profile.tables.bundled[url])
    ensures AllWorkIn(heap, voc, profile, Document(root, [], None, None, None), {}, None)
  {
    TasksWorkInContext(heap, voc, profile, Document(root, [], None, None, None), {}, None);
  }
}
