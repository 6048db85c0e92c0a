/**
 * What an accepted document holds, said of the document itself: no tasks, no paths and no findings.
 * The room of a value is how many more levels its path may still go down.
 */
module Conformity {
  import opened Wrappers
  import opened Diagnostics
  import opened DocumentGraph
  import opened DocumentRules

  ghost predicate Passes(voc: Vocabulary, check: Check, v: Value) {
    voc.content(check, v) == None
  }

  // ------------------------------------------------------------ scalars

  /** A value object: a text with an optional language tag, and nothing else. */
  ghost predicate IsTextRecord(heap: Heap, voc: Vocabulary, check: Check, v: Value) {
    && v.Ref? && v.id in heap && heap[v.id].Record?
    && var fields := heap[v.id].fields;
       && "@value" in fields && fields["@value"].Str? && Passes(voc, check, fields["@value"])
       && ("@language" in fields ==> fields["@language"].Str? && Passes(voc, LanguageTag, fields["@language"]))
       && (forall key <- fields :: key == "@value" || key == "@language")
  }

  /** A value of the right kind, whose content is accepted; null stands for no value, but for a language tag. */
  ghost predicate IsScalar(heap: Heap, voc: Vocabulary, check: Check, v: Value) {
    match v
    case Null => !check.LanguageTag?
    case Str(_) => !check.Count? && Passes(voc, check, v)
    case Num(_) => check.Count? && Passes(voc, check, v)
    case Ref(_) => check.Text? && IsTextRecord(heap, voc, check, v)
    case _ => false
  }

  /** A list that is not empty, whose items are values or null. */
  ghost predicate IsScalarList(heap: Heap, voc: Vocabulary, check: Check, items: seq<Value>) {
    items != [] && forall item <- items :: item == Null || (!item.Alien? && IsScalar(heap, voc, check, item))
  }

  ghost predicate AtMostOne(items: seq<Value>) {
    forall i, j | 0 <= i < j < |items| :: items[i] == Null || items[j] == Null
  }

  ghost predicate IsLanguageMap(heap: Heap, voc: Vocabulary, plain: bool, v: Value) {
    || v == Null
    || (v.Ref? && v.id in heap && heap[v.id].Record?
        && forall language <- heap[v.id].fields ::
             && Passes(voc, LanguageTag, Str(language))
             && var text := heap[v.id].fields[language];
                text == Null || (text.Str? && Passes(voc, Text(plain), text)))
  }

  ghost predicate HasItems(heap: Heap, v: Value) {
    v.Ref? && v.id in heap && heap[v.id].List?
  }

  /** What a property without embedded documents may hold. */
  ghost predicate IsLeaf(heap: Heap, voc: Vocabulary, rule: Rule, v: Value)
    requires !rule.References?
  {
    match rule
    case Single(check) =>
      if HasItems(heap, v)
      then IsScalarList(heap, voc, check, heap[v.id].items) && AtMostOne(heap[v.id].items)
      else IsScalar(heap, voc, check, v)
    case Many(check) =>
      if HasItems(heap, v) then IsScalarList(heap, voc, check, heap[v.id].items) else IsScalar(heap, voc, check, v)
    case LanguageMap(plain) => IsLanguageMap(heap, voc, plain, v)
    case Identifier => v.Str? && Passes(voc, Reference, v)
    case NoObject =>
      v == Null || (HasItems(heap, v) && heap[v.id].items != [] && forall item <- heap[v.id].items :: item == Null)
    case Unchecked => v == Null
  }

  /** Fields the preview leaves out: empty lists, and identifiers that are null or lists of nulls. */
  ghost predicate IsEmptyField(heap: Heap, rule: Rule, v: Value) {
    if HasItems(heap, v)
    then
      !rule.Unchecked?
      && (heap[v.id].items == [] || (rule.Identifier? && forall item <- heap[v.id].items :: item == Null))
    else rule.Identifier? && v == Null
  }

  // ------------------------------------------------------------ data without a vocabulary

  /** Explicit JSON-LD keywords have the kinds of values they must have. */
  ghost predicate HasKeywordShapes(heap: Heap, fields: map<string, Value>) {
    && ("@id" in fields ==> fields["@id"].Str?)
    && ("@type" in fields ==>
          fields["@type"].Str?
          || (HasItems(heap, fields["@type"]) && forall item <- heap[fields["@type"].id].items :: item.Str?))
    && ("@value" in fields && "@language" in fields && fields["@language"] != Null ==>
          fields["@language"].Str? && (fields["@value"] == Null || fields["@value"].Str?))
  }

  /** The record is a JSON literal: its `@value` is not looked into. */
  ghost predicate IsLiteral(heap: Heap, fields: map<string, Value>) {
    && "@type" in fields
    && (fields["@type"] == Str("@json")
        || (HasItems(heap, fields["@type"]) && heap[fields["@type"].id].items == [Str("@json")]))
  }

  /** Plain JSON within the room. */
  ghost predicate IsData(heap: Heap, v: Value, room: int, keywords: bool)
    decreases if room < 0 then 0 else room + 1
  {
    && room >= 0 && !v.Alien?
    && (v.Ref? && v.id in heap ==>
          match heap[v.id]
          case List(items) => forall item <- items :: IsData(heap, item, room - 1, keywords)
          case Record(_, fields) =>
            && (keywords ==> HasKeywordShapes(heap, fields))
            && forall key <- fields ::
                 IsData(heap, fields[key], room - 1, keywords && !(IsLiteral(heap, fields) && key == "@value")))
  }

  // ------------------------------------------------------------ documents

  /** The context of a record: its own, or that around it, or the standard one. */
  ghost predicate HasContext(
    heap: Heap, voc: Vocabulary, fields: map<string, Value>, inherited: Option<nat>, context: nat)
  {
    if "@context" in fields
    then
      var own := Unfold(heap, fields["@context"], 3);
      own.Some? && voc.readContext(own.value, inherited) == Understood(context)
    else context == if inherited.Some? then inherited.value else voc.standard
  }

  /** At most one key spells `type`, `type` itself if none does, and its value names a supported type. */
  ghost predicate HasType(voc: Vocabulary, fields: map<string, Value>, context: nat, kind: nat) {
    && (forall a, b | a in fields && b in fields && IsTypeKey(voc, context, a) && IsTypeKey(voc, context, b) :: a == b)
    && exists key ::
         && (IsTypeKey(voc, context, key)
             || (key == "type" && forall other <- fields :: !IsTypeKey(voc, context, other)))
         && key in fields && fields[key].Str? && voc.readType(context, fields[key].s) == Some(kind)
  }

  ghost predicate IsTypeKey(voc: Vocabulary, context: nat, key: string) {
    key != "@context" && voc.names(context, key)
  }

  /** The record has this context and this type, which its place accepts. */
  ghost predicate IsHeaded(heap: Heap, voc: Vocabulary, fields: map<string, Value>, inherited: Option<nat>,
                           range: Option<nat>, decoder: Option<nat>, context: nat, kind: nat)
  {
    && HasContext(heap, voc, fields, inherited, context) && HasType(voc, fields, context, kind)
    && (range.Some? ==> voc.within(kind, range.value)) && (decoder.Some? ==> voc.within(kind, decoder.value))
  }

  /** The field supplies a single value, null standing for none. */
  ghost predicate SuppliesOne(heap: Heap, v: Value) {
    if HasItems(heap, v)
    then AtMostOne(heap[v.id].items) && exists item <- heap[v.id].items :: item != Null
    else v != Null
  }

  ghost predicate SuppliesSome(heap: Heap, v: Value) {
    if HasItems(heap, v) then exists item <- heap[v.id].items :: item != Null else v != Null
  }

  /** Two spellings of one functional property both supply values, and this one supplies a single one. */
  ghost predicate IsSpeltTwice(
    heap: Heap, voc: Vocabulary, context: nat, kind: nat, fields: map<string, Value>, source: string)
    requires source in fields
  {
    && voc.group(context, kind, source).Some? && SuppliesOne(heap, fields[source])
    && exists other <- fields ::
         && other != source && other != "@context"
         && voc.group(context, kind, other) == voc.group(context, kind, source) && SuppliesSome(heap, fields[other])
  }

  /** A reference: null, an accepted IRI, or a conforming document of an accepted type. */
  ghost predicate IsReference(heap: Heap, voc: Vocabulary, v: Value, room: int, context: nat,
                              range: Option<nat>, decoder: Option<nat>)
    decreases if room < 0 then 0 else room + 1, 2
  {
    match v
    case Null => true
    case Str(_) => Passes(voc, Reference, v)
    case Ref(id) => id in heap && heap[id].Record? && Conforms(heap, voc, v, room, Some(context), range, decoder)
    case _ => false
  }

  /** A reference, or a list of references that is not empty; where one may be navigated to, at most one. */
  ghost predicate AreReferences(heap: Heap, voc: Vocabulary, rule: Rule, v: Value, room: int, context: nat)
    requires rule.References?
    decreases if room < 0 then 0 else room + 1, 3
  {
    if HasItems(heap, v)
    then
      && heap[v.id].items != []
      && (rule.navigation ==> AtMostOne(heap[v.id].items))
      && forall item <- heap[v.id].items ::
           IsReference(heap, voc, item, room - 1, context, rule.range, rule.decoder)
    else IsReference(heap, voc, v, room, context, rule.range, rule.decoder)
  }

  /** What a field of a typed record may hold, by what the vocabulary plans for it. */
  ghost predicate IsField(heap: Heap, voc: Vocabulary, fields: map<string, Value>, source: string, room: int,
                          context: nat, kind: nat)
    requires source in fields
    decreases if room < 0 then 0 else room + 1, 4
  {
    var v := fields[source];
    match voc.plan(context, kind, source)
    case Opaque => IsData(heap, v, room, true)
    case Outside => false
    case Incompatible => false
    case Inapplicable => v == Null
    case Checked(rule) =>
      && !IsSpeltTwice(heap, voc, context, kind, fields, source)
      && (IsEmptyField(heap, rule, v)
          || if rule.References? then AreReferences(heap, voc, rule, v, room, context) else IsLeaf(heap, voc, rule, v))
  }

  /**
   * A conforming document: a record with a context and a supported type that its place accepts, each of
   * whose other fields holds what the vocabulary allows.
   */
  ghost predicate Conforms(heap: Heap, voc: Vocabulary, v: Value, room: int, inherited: Option<nat>,
                           range: Option<nat>, decoder: Option<nat>)
    decreases if room < 0 then 0 else room + 1, 0
  {
    && room >= 0 && v.Ref? && v.id in heap && heap[v.id].Record?
    && var fields := heap[v.id].fields;
       && (forall key <- fields :: !fields[key].Alien?)
       && exists context: nat, kind: nat ::
            && IsHeaded(heap, voc, fields, inherited, range, decoder, context, kind)
            && FieldsConform(heap, voc, fields, room - 1, context, kind)
  }

  /** Every field but the context and the type holds what the vocabulary allows. */
  ghost predicate FieldsConform(heap: Heap, voc: Vocabulary, fields: map<string, Value>, room: int,
                                context: nat, kind: nat)
    decreases if room < 0 then 0 else room + 1, 5
  {
    forall key <- fields | key != "@context" && !voc.names(context, key) ::
      IsField(heap, voc, fields, key, room, context, kind)
  }
}
