/** What the names of an inline context mean, in the words of its definitions. */
module TermMeanings {
  import opened Wrappers
  import opened Diagnostics
  import opened Definitions
  import opened ContextTerms

  // ------------------------------------------------------------ what a text stands for

  predicate StartsWith(value: string, first: char) {
    value != "" && value[0] == first
  }

  /** `value` is `prefix:suffix`, split at its first colon. */
  predicate Splits(value: string, prefix: string, suffix: string) {
    value == prefix + ":" + suffix && ':' !in prefix
  }

  /** The IRI a compact or an absolute IRI stands for. */
  function ExpandedIri(terms: Terms, prefix: string, suffix: string): string {
    if prefix in terms && terms[prefix].prefix then terms[prefix].iri + suffix else prefix + ":" + suffix
  }

  /** A text stands for a keyword, for what a term means, or for an IRI; not while it refers to a pending name. */
  ghost predicate Denotes(
    value: string, iri: string, terms: Terms, pending: set<string>, supported: string -> bool)
  {
    if value == "@id" || value == "@type" then iri == value
    else if value in pending then false
    else if value in terms then iri == terms[value].iri
    else
      supported(iri)
      && exists prefix, suffix ::
           Splits(value, prefix, suffix) && prefix !in pending && iri == ExpandedIri(terms, prefix, suffix)
  }

  ghost predicate Denoted(value: string, terms: Terms, pending: set<string>, supported: string -> bool) {
    exists iri :: Denotes(value, iri, terms, pending, supported)
  }

  lemma SplitsAtColon(value: string, prefix: string, suffix: string)
    requires Splits(value, prefix, suffix)
    ensures Colon(value) < |value| && prefix == value[..Colon(value)] && suffix == value[Colon(value) + 1..]
  {
    hide Colon;
    var i := Colon(value);
    assert value[|prefix|] == ':';
    assert value[..|prefix|] == prefix;
    forall k | 0 <= k < |prefix| ensures value[k] != ':' { assert prefix[k] in prefix && value[k] == prefix[k]; }
    forall k | 0 <= k < i ensures value[k] != ':' { assert value[..i][k] in value[..i]; }
  }

  lemma SplitsAt(value: string, i: nat)
    requires i < |value| && value[i] == ':'
    ensures value[..i] + ":" + value[i + 1..] == value
  {
  }

  lemma ColonSplits(value: string)
    requires Colon(value) < |value|
    ensures Splits(value, value[..Colon(value)], value[Colon(value) + 1..])
  {
    hide Colon;
    SplitsAt(value, Colon(value));
  }

  /** Resolving finds exactly the IRI a text stands for. */
  lemma ResolvingDenotes(value: string, terms: Terms, pending: set<string>, supported: string -> bool, iri: string)
    ensures ResolveTerm(value, terms, pending, supported) == Some(iri) <==>
              Denotes(value, iri, terms, pending, supported)
  {
    hide Colon;
    var i := Colon(value);
    if i < |value| {
      ColonSplits(value);
      assert value == value[..i] + ":" + value[i + 1..];
    }
    forall prefix, suffix | Splits(value, prefix, suffix)
      ensures i < |value| && prefix == value[..i] && suffix == value[i + 1..]
    {
      SplitsAtColon(value, prefix, suffix);
    }
  }

  // ------------------------------------------------------------ what a definition gives a name

  /** The term an `@id` may name: no relative or blank identifier, and no keyword but the two that can be aliased. */
  predicate IsMappable(id: string) {
    && !StartsWith(id, '#') && !StartsWith(id, '/') && !StartsWith(id, '.') && !("_:" <= id)
    && (StartsWith(id, '@') ==> id == "@id" || id == "@type")
  }

  predicate EndsInDelimiter(iri: string) {
    iri != "" && (iri[|iri| - 1] == '#' || iri[|iri| - 1] == '/' || iri[|iri| - 1] == ':')
  }

  /** A record of the four keys an expanded definition may have, with a text as its `@id`. */
  predicate IsExpanded(definition: Definition) {
    && definition.Expanded?
    && (forall key <- definition.fields ::
          key == "@id" || key == "@type" || key == "@container" || key == "@prefix")
    && "@id" in definition.fields && definition.fields["@id"].JString?
  }

  /** The text a definition maps its name to. */
  function IdOf(definition: Definition): string
    requires definition.Simple? || IsExpanded(definition)
  {
    match definition
    case Simple(id) => id
    case Expanded(fields) => fields["@id"].s
  }

  /** The type a definition coerces values to, a text of its own or none. */
  ghost predicate GivesCoercion(
    fields: map<string, FieldValue>, coercion: Option<string>, terms: Terms, pending: set<string>,
    supported: string -> bool)
  {
    if "@type" !in fields then coercion.None?
    else
      && fields["@type"].JString? && (StartsWith(fields["@type"].s, '@') ==> fields["@type"].s == "@id")
      && coercion.Some? && Denotes(fields["@type"].s, coercion.value, terms, pending, supported)
  }

  predicate GivesContainer(fields: map<string, FieldValue>, container: Option<string>) {
    if "@container" !in fields then container.None?
    else if fields["@container"] == JString("@list") then container == Some("@list")
    else fields["@container"] == JString("@language") && "@type" !in fields && container == Some("@language")
  }

  predicate GivesPrefix(fields: map<string, FieldValue>, prefix: bool) {
    if "@prefix" !in fields then !prefix else fields["@prefix"] == JBool(prefix)
  }

  /** A definition gives a name this term, while the names in `pending` have no meaning. */
  ghost predicate Gives(
    definition: Definition, term: ContextTerm, terms: Terms, pending: set<string>, supported: string -> bool)
  {
    && (definition.Simple? || IsExpanded(definition))
    && IsMappable(IdOf(definition)) && Denotes(IdOf(definition), term.iri, terms, pending, supported)
    && match definition
       case Simple(_) => term.coercion.None? && term.container.None? && term.prefix == EndsInDelimiter(term.iri)
       case Expanded(fields) =>
         && (StartsWith(term.iri, '@') ==> fields.Keys == {"@id"})
         && GivesCoercion(fields, term.coercion, terms, pending, supported)
         && GivesContainer(fields, term.container) && GivesPrefix(fields, term.prefix)
  }

  predicate IsNameable(name: string) {
    name != "" && ':' !in name && !StartsWith(name, '@')
  }

  predicate IsProtected(context: Inline, name: string, term: ContextTerm) {
    context.protected.Some? && name in context.protected.value ==> context.protected.value[name] == term
  }

  /** The name has this meaning once exactly the names of `known` have theirs. */
  ghost predicate HasMeaning(context: Inline, name: string, known: Terms, term: ContextTerm) {
    && name in context.definitions && IsNameable(name) && IsProtected(context, name, term)
    && Gives(context.definitions[name], term, context.inherited + known, context.definitions.Keys - known.Keys,
             context.supported)
  }

  /** The one name that may go without a meaning: the bundled contexts switch the default vocabulary off. */
  predicate IsDirective(context: Inline, name: string) {
    && name == "@vocab" && name in context.definitions && context.definitions[name] == Simple("_:")
    && context.protected.None?
  }

  /** A simple definition reads as the term it gives. */
  lemma SimpleReads(id: string, terms: Terms, pending: set<string>, supported: string -> bool, term: ContextTerm)
    ensures ReadTerm(Simple(id), terms, pending, supported) == Defined(term)
       <==> Gives(Simple(id), term, terms, pending, supported)
  {
    hide ResolveTerm, Denotes;
    ResolvingDenotes(id, terms, pending, supported, term.iri);
  }

  lemma ExpandedReads(
    fields: map<string, FieldValue>, terms: Terms, pending: set<string>, supported: string -> bool, term: ContextTerm)
    ensures ReadTerm(Definition.Expanded(fields), terms, pending, supported) == Defined(term)
       <==> Gives(Definition.Expanded(fields), term, terms, pending, supported)
  {
    hide ResolveTerm, Denotes;
    if "@id" in fields && fields["@id"].JString? {
      ResolvingDenotes(fields["@id"].s, terms, pending, supported, term.iri);
    }
    if "@type" in fields && fields["@type"].JString? && term.coercion.Some? {
      ResolvingDenotes(fields["@type"].s, terms, pending, supported, term.coercion.value);
    }
  }

  lemma TermsRead(
    definition: Definition, terms: Terms, pending: set<string>, supported: string -> bool, term: ContextTerm)
    ensures ReadTerm(definition, terms, pending, supported) == Defined(term)
       <==> Gives(definition, term, terms, pending, supported)
    ensures !ReadTerm(definition, terms, pending, supported).Skipped?
  {
    hide ResolveTerm, Denotes, ReadOptions;
    match definition
    case Simple(id) => SimpleReads(id, terms, pending, supported, term);
    case Expanded(fields) => ExpandedReads(fields, terms, pending, supported, term);
    case Null =>
    case Other =>
  }

  /** A name reads as defined exactly when it has that meaning, and only the directive is skipped. */
  lemma NamesReadAsTheyMean(context: Inline, name: string, known: Terms, term: ContextTerm)
    requires name in context.definitions
    ensures ReadKnowing(context, name, known) == Defined(term) <==> HasMeaning(context, name, known, term)
    ensures ReadKnowing(context, name, known).Skipped? <==> IsDirective(context, name)
  {
    hide ReadTerm, Gives;
    TermsRead(context.definitions[name], context.inherited + known, context.definitions.Keys - known.Keys,
              context.supported, term);
    var reading := ReadTerm(context.definitions[name], context.inherited + known,
                            context.definitions.Keys - known.Keys, context.supported);
    if reading.Defined? {
      TermsRead(context.definitions[name], context.inherited + known, context.definitions.Keys - known.Keys,
                context.supported, reading.meaning);
    }
    assert "@vocab"[0] == '@';
  }

  // ------------------------------------------------------------ whole contexts

  /** A text refers to a new name: it is that name, or a compact IRI with that name before its first colon. */
  ghost predicate Mentions(context: Inline, value: string, other: string) {
    && other in context.definitions && value != "@id" && value != "@type"
    && (value == other
        || (value !in context.definitions && value !in context.inherited
            && exists suffix :: Splits(value, other, suffix)))
  }

  ghost predicate MentionsIn(context: Inline, fields: map<string, FieldValue>, key: string, other: string) {
    key in fields && fields[key].JString? && Mentions(context, fields[key].s, other)
  }

  ghost predicate RefersTo(context: Inline, name: string, other: string)
    requires name in context.definitions
  {
    match context.definitions[name]
    case Simple(id) => Mentions(context, id, other)
    case Expanded(fields) => MentionsIn(context, fields, "@id", other) || MentionsIn(context, fields, "@type", other)
    case _ => false
  }

  lemma MentionsAreWaitedFor(context: Inline, value: string, other: string)
    ensures other in WaitsFor(context, value) <==> Mentions(context, value, other)
  {
    var i := Colon(value);
    if i < |value| { ColonSplits(value); }
    forall suffix | Splits(value, other, suffix) ensures i < |value| && other == value[..i] {
      SplitsAtColon(value, other, suffix);
    }
  }

  lemma ReferencesAreNeeded(context: Inline, name: string, other: string)
    requires name in context.definitions
    ensures other in SystemOf(context).needs(name) <==> RefersTo(context, name, other)
  {
    hide WaitsFor, Mentions;
    var definition := context.definitions[name];
    if definition.Simple? || definition.Expanded? {
      var fields := FieldsOf(definition);
      if "@id" in fields && fields["@id"].JString? { MentionsAreWaitedFor(context, fields["@id"].s, other); }
      if "@type" in fields && fields["@type"].JString? { MentionsAreWaitedFor(context, fields["@type"].s, other); }
    }
  }

  /** Every name but the directive has the meaning its definition gives it, and references go down in rank. */
  ghost predicate Assignment(context: Inline, meaning: Terms, rank: map<string, nat>) {
    && meaning.Keys <= context.definitions.Keys && rank.Keys == meaning.Keys
    && (forall name <- context.definitions ::
          if name in meaning then HasMeaning(context, name, meaning, meaning[name]) else IsDirective(context, name))
    && (forall name, other | name in meaning && RefersTo(context, name, other) ::
          other in meaning && rank[other] < rank[name])
  }

  lemma AssignmentsAreSolutions(context: Inline, meaning: Terms, rank: map<string, nat>)
    ensures Assignment(context, meaning, rank) <==> Solution(SystemOf(context), meaning, rank)
  {
    hide HasMeaning, IsDirective, ReadKnowing, RefersTo, DependsOn;
    var system := SystemOf(context);
    forall name <- context.definitions
      ensures name in meaning ==>
                (system.read(name, meaning) == Defined(meaning[name]) <==>
                   HasMeaning(context, name, meaning, meaning[name]))
      ensures system.read(name, meaning).Skipped? <==> IsDirective(context, name)
      ensures forall other :: other in system.needs(name) <==> RefersTo(context, name, other)
    {
      assert system.read(name, meaning) == ReadKnowing(context, name, meaning);
      var any := ContextTerm("", None, None, false);
      NamesReadAsTheyMean(context, name, meaning, if name in meaning then meaning[name] else any);
      forall other ensures other in system.needs(name) <==> RefersTo(context, name, other) {
        ReferencesAreNeeded(context, name, other);
      }
    }
  }

  /**
   * An inline context is interpretable exactly when every name but the directive has a meaning its
   * definition gives it, with references that do not run in circles; there is only one such assignment.
   */
  lemma InterpretableInWords(context: Inline)
    requires Separate(context)
    ensures Interpretable(context) <==> exists meaning, rank :: Assignment(context, meaning, rank)
    ensures forall meaning, rank | Assignment(context, meaning, rank) :: meaning == ContextMeaning(context)
  {
    hide Assignment, SystemOf, Meaning, Solution;
    InterpretableExactlyWhenAcyclic(context);
    forall meaning, rank
      ensures Assignment(context, meaning, rank) <==> Solution(SystemOf(context), meaning, rank)
    {
      AssignmentsAreSolutions(context, meaning, rank);
    }
    if Interpretable(context) {
      var meaning, rank :| Solution(SystemOf(context), meaning, rank);
      assert Assignment(context, meaning, rank);
    }
    if meaning, rank :| Assignment(context, meaning, rank) {
      assert Solution(SystemOf(context), meaning, rank);
    }
  }

  /** Interpretable or not, a name has a meaning exactly when its definition gives it one under all the others. */
  lemma MeaningInWords(context: Inline, name: string)
    requires Separate(context)
    ensures name in ContextMeaning(context) <==> exists term :: HasMeaning(context, name, ContextMeaning(context), term)
    ensures name in ContextMeaning(context) ==>
              HasMeaning(context, name, ContextMeaning(context), ContextMeaning(context)[name])
    ensures Interpretable(context) <==>
              forall other <- context.definitions :: other in ContextMeaning(context) || IsDirective(context, other)
  {
    hide HasMeaning, IsDirective, ReadKnowing;
    var system, known := SystemOf(context), ContextMeaning(context);
    ContextIsLawful(context);
    forall other <- context.definitions
      ensures known.Keys <= system.names
      ensures other in known <==> exists term :: HasMeaning(context, other, known, term)
      ensures other in known ==> HasMeaning(context, other, known, known[other])
      ensures system.read(other, known).Skipped? <==> IsDirective(context, other)
    {
      MeaningIsFixpoint(system, other);
      assert system.read(other, known) == ReadKnowing(context, other, known);
      forall term ensures system.read(other, known) == Defined(term) <==> HasMeaning(context, other, known, term) {
        NamesReadAsTheyMean(context, other, known, term);
      }
      NamesReadAsTheyMean(context, other, known, ContextTerm("", None, None, false));
      if other in known { assert HasMeaning(context, other, known, known[other]); }
    }
    if name !in context.definitions {
      forall term ensures !HasMeaning(context, name, known, term) { OnlyDefinedNames(context, name, known, term); }
      MeaningStaysInside(context);
    }
  }

  lemma OnlyDefinedNames(context: Inline, name: string, known: Terms, term: ContextTerm)
    ensures HasMeaning(context, name, known, term) ==> name in context.definitions
  {
  }

  lemma MeaningStaysInside(context: Inline)
    requires Separate(context)
    ensures ContextMeaning(context).Keys <= context.definitions.Keys
  {
    ContextIsLawful(context);
    LevelsGrow(SystemOf(context), |SystemOf(context).names|);
  }

  /** A definition maps its name, or the values of its name, to the IRI of this text. */
  predicate Maps(definition: Definition, term: ContextTerm, value: string, iri: string) {
    match definition
    case Simple(id) => value == id && iri == term.iri
    case Expanded(fields) =>
      || ("@id" in fields && fields["@id"] == JString(value) && iri == term.iri)
      || ("@type" in fields && fields["@type"] == JString(value) && term.coercion == Some(iri))
    case _ => false
  }

  lemma MappedTextsAreDenoted(context: Inline, name: string, known: Terms, term: ContextTerm, value: string,
                              iri: string)
    requires HasMeaning(context, name, known, term) && Maps(context.definitions[name], term, value, iri)
    ensures Denotes(value, iri, context.inherited + known, context.definitions.Keys - known.Keys, context.supported)
  {
    hide Denotes;
  }

  lemma SplitsOnce(value: string, p: string, s: string, prefix: string, suffix: string)
    requires Splits(value, p, s) && Splits(value, prefix, suffix)
    ensures p == prefix && s == suffix
  {
    SplitsAtColon(value, p, s);
    SplitsAtColon(value, prefix, suffix);
  }

  /**
   * Where texts lead, in the table an interpreted context leaves: keywords to themselves, a term to what
   * it means, `p:s` to the IRI of the prefix `p` followed by `s`, and any other `p:s` to itself.
   */
  lemma TextsLeadToIris(context: Inline, name: string, value: string, iri: string)
    requires Separate(context) && name in context.definitions && name in ContextMeaning(context)
    requires Maps(context.definitions[name], ContextMeaning(context)[name], value, iri)
    ensures var terms := context.inherited + ContextMeaning(context);
            && (value == "@id" || value == "@type" ==> iri == value)
            && (value != "@id" && value != "@type" && value in terms ==> iri == terms[value].iri)
            && (forall p, s | Splits(value, p, s) && value !in terms ::
                  iri == if p in terms && terms[p].prefix then terms[p].iri + s else value)
            && (value == "@id" || value == "@type" || value in terms || exists p, s :: Splits(value, p, s))
  {
    hide ContextMeaning, HasMeaning, Denotes, Splits;
    MeaningInWords(context, name);
    MappedTextsAreDenoted(context, name, ContextMeaning(context), ContextMeaning(context)[name], value, iri);
    DenotedTextsLead(value, iri, context.inherited + ContextMeaning(context),
                     context.definitions.Keys - ContextMeaning(context).Keys, context.supported);
  }

  lemma DenotedTextsLead(value: string, iri: string, terms: Terms, pending: set<string>, supported: string -> bool)
    requires Denotes(value, iri, terms, pending, supported)
    ensures value == "@id" || value == "@type" ==> iri == value
    ensures value != "@id" && value != "@type" && value in terms ==> iri == terms[value].iri
    ensures forall p, s | Splits(value, p, s) && value !in terms ::
              iri == if p in terms && terms[p].prefix then terms[p].iri + s else value
    ensures value == "@id" || value == "@type" || value in terms || exists p, s :: Splits(value, p, s)
  {
    assert ':' !in "@id" && ':' !in "@type";
    forall p, s | Splits(value, p, s) && value !in terms
      ensures iri == if p in terms && terms[p].prefix then terms[p].iri + s else value
    {
      assert value[|p|] == ':';
      assert value != "@id" && value != "@type";
      var prefix, suffix :|
        Splits(value, prefix, suffix) && prefix !in pending && iri == ExpandedIri(terms, prefix, suffix);
      SplitsOnce(value, p, s, prefix, suffix);
      assert iri == ExpandedIri(terms, p, s);
    }
  }

  // ------------------------------------------------------------ why a context is refused

  /** The definition is as it should be so far, but a text in it stands for nothing yet. */
  ghost predicate Awaits(context: Inline, name: string, known: Terms)
    requires name in context.definitions
  {
    var definition := context.definitions[name];
    var terms, pending := context.inherited + known, context.definitions.Keys - known.Keys;
    && IsNameable(name) && (definition.Simple? || IsExpanded(definition)) && IsMappable(IdOf(definition))
    && (Denoted(IdOf(definition), terms, pending, context.supported) ==>
          && definition.Expanded? && "@type" in definition.fields
          && (exists iri :: Denotes(IdOf(definition), iri, terms, pending, context.supported) && !StartsWith(iri, '@'))
          && var coercion := definition.fields["@type"];
             coercion.JString? ==>
               (StartsWith(coercion.s, '@') ==> coercion.s == "@id")
               && !Denoted(coercion.s, terms, pending, context.supported))
  }

  /**
   * Something in the definition is of a kind it can never have: the name, the whole, its `@id`, or
   * at last its `@prefix`.
   */
  ghost predicate IsMalformed(context: Inline, name: string, known: Terms)
    requires name in context.definitions
  {
    var definition := context.definitions[name];
    var terms, pending := context.inherited + known, context.definitions.Keys - known.Keys;
    || name == ""
    || (IsNameable(name) && definition.Other?)
    || (IsNameable(name) && definition.Expanded?
        && (forall key <- definition.fields ::
              key == "@id" || key == "@type" || key == "@container" || key == "@prefix")
        && "@id" in definition.fields
        && if !definition.fields["@id"].JString? then true
           else
             && IsMappable(IdOf(definition))
             && "@prefix" in definition.fields && !definition.fields["@prefix"].JBool?
             && (exists iri ::
                   Denotes(IdOf(definition), iri, terms, pending, context.supported) && !StartsWith(iri, '@'))
             && (exists coercion :: GivesCoercion(definition.fields, coercion, terms, pending, context.supported))
             && exists container :: GivesContainer(definition.fields, container))
  }

  lemma DenotedIsResolved(value: string, terms: Terms, pending: set<string>, supported: string -> bool)
    ensures var iri := ResolveTerm(value, terms, pending, supported);
            && (iri.Some? <==> Denoted(value, terms, pending, supported))
            && (iri.Some? ==> Denotes(value, iri.value, terms, pending, supported))
            && forall other :: Denotes(value, other, terms, pending, supported) ==> iri == Some(other)
  {
    hide ResolveTerm, Denotes;
    var iri := ResolveTerm(value, terms, pending, supported);
    forall other ensures iri == Some(other) <==> Denotes(value, other, terms, pending, supported) {
      ResolvingDenotes(value, terms, pending, supported, other);
    }
    if iri.Some? { assert Denotes(value, iri.value, terms, pending, supported); }
  }

  lemma CoercionsAreResolved(fields: map<string, FieldValue>, terms: Terms, pending: set<string>,
                             supported: string -> bool)
    ensures (exists coercion :: GivesCoercion(fields, coercion, terms, pending, supported)) <==>
              "@type" in fields ==>
                fields["@type"].JString? && (StartsWith(fields["@type"].s, '@') ==> fields["@type"].s == "@id")
                && ResolveTerm(fields["@type"].s, terms, pending, supported).Some?
  {
    hide ResolveTerm, Denotes;
    if "@type" !in fields {
      assert GivesCoercion(fields, None, terms, pending, supported);
    } else if fields["@type"].JString? {
      var value := fields["@type"].s;
      DenotedIsResolved(value, terms, pending, supported);
      var iri := ResolveTerm(value, terms, pending, supported);
      if iri.Some? && (StartsWith(value, '@') ==> value == "@id") {
        assert GivesCoercion(fields, iri, terms, pending, supported);
      }
    }
  }

  lemma ContainersAreGiven(fields: map<string, FieldValue>)
    ensures (exists container :: GivesContainer(fields, container)) <==>
              "@container" in fields ==>
                fields["@container"] == JString("@list")
                || (fields["@container"] == JString("@language") && "@type" !in fields)
  {
    assert "@list" != "@language";
    if "@container" !in fields { assert GivesContainer(fields, None); }
    else if fields["@container"] == JString("@list") { assert GivesContainer(fields, Some("@list")); }
    else if fields["@container"] == JString("@language") && "@type" !in fields {
      assert GivesContainer(fields, Some("@language"));
    }
  }

  /** The reading of a name that has no meaning: it waits for others, or it is refused for one of two reasons. */
  lemma RefusalsInWords(context: Inline, name: string, known: Terms)
    requires name in context.definitions
    ensures var reading := ReadKnowing(context, name, known);
            && (reading.Unresolved? <==> Awaits(context, name, known))
            && (reading == Refused(InvalidContext) <==> IsMalformed(context, name, known))
            && (reading.Refused? ==> reading.reason == InvalidContext || reading.reason == UnsupportedContextForm)
  {
    hide ResolveTerm, Denotes, Denoted, GivesCoercion, GivesContainer;
    var definition := context.definitions[name];
    var terms, pending := context.inherited + known, context.definitions.Keys - known.Keys;
    if definition.Simple? {
      DenotedIsResolved(definition.id, terms, pending, context.supported);
    }
    if definition.Expanded? {
      var fields := definition.fields;
      if "@id" in fields && fields["@id"].JString? {
        DenotedIsResolved(fields["@id"].s, terms, pending, context.supported);
      }
      if "@type" in fields && fields["@type"].JString? {
        DenotedIsResolved(fields["@type"].s, terms, pending, context.supported);
      }
      CoercionsAreResolved(fields, terms, pending, context.supported);
      ContainersAreGiven(fields);
    }
  }

  /** The name is refused for this reason, even when everything else has its meaning. */
  ghost predicate IsRefused(context: Inline, name: string, reason: Reason) {
    name in context.definitions && ReadKnowing(context, name, ContextMeaning(context)) == Refused(reason)
  }

  ghost predicate HasRefused(context: Inline) {
    exists name, reason :: IsRefused(context, name, reason)
  }

  /** A remark on a refused name, at that name. */
  ghost predicate Justified(context: Inline, d: Diagnostic) {
    exists name :: d.path == [Key(name)] && IsRefused(context, name, d.reason)
  }

  /** A name without a meaning that may not go without. */
  ghost predicate IsMissing(context: Inline, name: string) {
    name in context.definitions && name !in ContextMeaning(context) && !IsDirective(context, name)
  }

  /** A remark on a missing name, at that name. */
  ghost predicate OnMissing(context: Inline, d: Diagnostic) {
    exists name :: IsMissing(context, name) && d == Diagnostic(InvalidContext, [Key(name)])
  }

  lemma ReadingStays(context: Inline, name: string, known: Terms, terms: Terms, pending: set<string>)
    requires Underway(context, known, terms, pending) && name in pending
    requires ReadName(context, name, terms, pending).Refused?
    ensures IsRefused(context, name, ReadName(context, name, terms, pending).reason)
  {
    hide ReadName, Directives, ReadKnowing, Meaning, Stable, Local, IsDirective;
    ContextIsLawful(context);
    DirectiveIsNeverAwaited(context, name, known, pending);
    MeaningStaysInside(context);
    var system := SystemOf(context);
    assert system.read(name, known) == ReadKnowing(context, name, known);
    ReadingIsStable(system, name, known, ContextMeaning(context));
    assert system.read(name, ContextMeaning(context)) == ReadKnowing(context, name, ContextMeaning(context));
  }

  /** Every remark of a round is justified; the rest of its statement is that of its soundness. */
  lemma {:induction false} RoundRemarks(context: Inline, order: seq<string>, known: Terms, start: Round)
    requires Underway(context, known, start.terms, start.pending) && start.pending <= context.definitions.Keys
    requires start == StartRound(start.terms, start.pending)
    ensures forall d <- AfterNames(context, order, start).remarks :: Justified(context, d)
  {
    hide ReadName, Directives, ContextMeaning, Interpretable, ReadKnowing, Underway, IsRefused;
    if order != [] {
      var before, name := order[..|order| - 1], order[|order| - 1];
      RoundRemarks(context, before, known, start);
      var learnt := RoundIsSound(context, before, known, start);
      var round := AfterNames(context, before, start);
      if name in round.pending {
        var reading := ReadName(context, name, round.terms, round.pending);
        if reading.Refused? {
          ReadingStays(context, name, learnt, round.terms, round.pending);
          assert Justified(context, Diagnostic(reading.reason, [Key(name)]));
        }
      }
    }
  }

  lemma {:induction false} LeftOverInWords(order: seq<string>, pending: set<string>)
    ensures forall d :: d in LeftOver(order, pending) <==>
              exists name :: name in order && name in pending && d == Diagnostic(InvalidContext, [Key(name)])
  {
    if order != [] {
      var before, last := order[..|order| - 1], order[|order| - 1];
      LeftOverInWords(before, pending);
      assert order == before + [last];
      forall d ensures d in LeftOver(order, pending) <==>
        exists name :: name in order && name in pending && d == Diagnostic(InvalidContext, [Key(name)])
      {
        if d in LeftOver(before, pending) {
          var name :| name in before && name in pending && d == Diagnostic(InvalidContext, [Key(name)]);
          assert name in order;
        }
      }
    }
  }

  /** When a round decides nothing and remarks on nothing, no name is refused, and those left over are missing. */
  lemma StuckNamesAreMissing(context: Inline, known: Terms, terms: Terms, pending: set<string>)
    requires Underway(context, known, terms, pending)
    requires forall name <- pending ::
      name !in Directives(context) && ReadKnowing(context, name, known).Unresolved?
    ensures !HasRefused(context)
    ensures forall name :: name in pending <==> IsMissing(context, name)
  {
    hide ReadName, Directives, ReadKnowing, Meaning, ContextMeaning, IsDirective;
    StuckContext(context, known, terms, pending);
    var any := ContextTerm("", None, None, false);
    forall name <- context.definitions
      ensures !ReadKnowing(context, name, known).Refused?
      ensures name in pending <==> IsMissing(context, name)
    {
      NamesReadAsTheyMean(context, name, known, any);
      DirectiveIsNeverAwaited(context, name, known, pending);
      if name in known {
        MeaningInWords(context, name);
        NamesReadAsTheyMean(context, name, known, known[name]);
      } else {
        assert name in pending || name in Directives(context)
               || name !in context.definitions.Keys - known.Keys - Directives(context);
      }
    }
  }

  lemma LeftOnMissing(context: Inline, order: seq<string>, pending: set<string>)
    requires forall name <- context.definitions :: name in order
    requires forall name :: name in pending <==> IsMissing(context, name)
    ensures forall d :: d in LeftOver(order, pending) <==> OnMissing(context, d)
  {
    hide IsMissing;
    LeftOverInWords(order, pending);
    forall d | OnMissing(context, d) ensures d in LeftOver(order, pending) {
      var name :| IsMissing(context, name) && d == Diagnostic(InvalidContext, [Key(name)]);
      MissingIsDefined(context, name);
    }
  }

  lemma MissingIsDefined(context: Inline, name: string)
    requires IsMissing(context, name)
    ensures name in context.definitions
  {
  }

  lemma {:induction false} NothingIsLeft(order: seq<string>)
    ensures LeftOver(order, {}) == []
  {
    if order != [] { NothingIsLeft(order[..|order| - 1]); }
  }

  lemma {:induction false} RoundsAreExplained(
    context: Inline, order: seq<string>, known: Terms, terms: Terms, pending: set<string>)
    requires pending <= context.definitions.Keys
    requires Underway(context, known, terms, pending) && forall name <- context.definitions :: name in order
    ensures var remarks := AfterRounds(context, order, terms, pending).1;
            if HasRefused(context) then forall d <- remarks :: Justified(context, d)
            else forall d :: d in remarks <==> OnMissing(context, d)
    decreases pending
  {
    hide ReadName, Directives, ContextMeaning, Interpretable, ReadKnowing, Underway, AfterName, HasRefused, OnMissing,
         Justified;
    if pending == {} {
      StuckNamesAreMissing(context, known, terms, pending);
      LeftOnMissing(context, order, pending);
      NothingIsLeft(order);
    } else {
      var start := StartRound(terms, pending);
      var round := AfterNames(context, order, start);
      var learnt := RoundIsSound(context, order, known, start);
      RoundRemarks(context, order, known, start);
      if round.remarks != [] {
        assert Justified(context, round.remarks[0]);
        SomeAreRefused(context, round.remarks[0]);
      } else if round.resolved {
        RoundsAreExplained(context, order, learnt, round.terms, round.pending);
      } else {
        StuckNamesAreMissing(context, learnt, round.terms, round.pending);
        LeftOnMissing(context, order, round.pending);
      }
    }
  }

  lemma SomeAreRefused(context: Inline, d: Diagnostic)
    requires Justified(context, d)
    ensures HasRefused(context)
  {
    hide IsRefused;
  }

  /**
   * Why a context is refused, in any order of its names: if names are refused, every remark is on one of
   * them and gives its reason; otherwise the remarks are on the names that are left without a meaning.
   */
  lemma RemarksAreExplained(context: Inline, order: seq<string>)
    requires Separate(context)
    requires forall name :: name in order <==> name in context.definitions
    ensures var remarks := Interpreted(context, order).1;
            if HasRefused(context) then remarks != [] && forall d <- remarks :: Justified(context, d)
            else forall d :: d in remarks <==> OnMissing(context, d)
  {
    hide ReadName, ContextMeaning, AfterRounds, Directives, ReadKnowing, Underway, HasRefused, OnMissing, Justified;
    Starting(context);
    RoundsAreExplained(context, order, map[], context.inherited, context.definitions.Keys);
    InterpretedIsMeaning(context, order);
    if HasRefused(context) { RefusedIsUninterpretable(context); }
  }

  lemma RefusedIsUninterpretable(context: Inline)
    requires Separate(context) && HasRefused(context)
    ensures !Interpretable(context)
  {
    hide ReadKnowing, Meaning, Stable, Local;
    ContextIsLawful(context);
    var name, reason :| IsRefused(context, name, reason);
    var system := SystemOf(context);
    assert system.read(name, ContextMeaning(context)) == ReadKnowing(context, name, ContextMeaning(context));
    RefusalIsFinal(system, name, ContextMeaning(context));
  }
}
