/**
 * Inline JSON-LD term definitions (a bounded profile of section 4.2 of JSON-LD 1.1 Processing
 * Algorithms and API).  Definitions may refer to each other in any order; the checker resolves them
 * round by round until nothing is pending or a round makes no progress.
 */
module ContextTerms {
  import opened Wrappers
  import opened Diagnostics
  import opened Definitions

  /** A JSON value inside a term definition, as far as the profile tells values apart. */
  datatype FieldValue = JBool(b: bool) | JString(s: string) | JOther

  /** The value a term name is bound to in an inline context. */
  datatype Definition = Simple(id: string) | Expanded(fields: map<string, FieldValue>) | Null | Other

  /**
   * One inline context to interpret: its definitions, the terms inherited under other names, the
   * terms that may not be changed (none while the bundled contexts themselves are read), and the
   * test for absolute IRIs the profile supports.
   */
  datatype Inline = Inline(
    definitions: map<string, Definition>,
    inherited: Terms,
    protected: Option<Terms>,
    supported: string -> bool)

  const TERM_KEYS := {"@id", "@type", "@container", "@prefix"}

  predicate IsKeyword(value: string) {
    |value| > 0 && value[0] == '@'
  }

  /** The position of the first colon, or |value|. */
  function Colon(value: string): (i: nat)
    ensures i <= |value|
    ensures i < |value| ==> value[i] == ':'
    ensures ':' !in value[..i]
  {
    if value == "" then 0
    else if value[0] == ':' then 0
    else
      var rest := Colon(value[1..]);
      assert value[..rest + 1] == [value[0]] + value[1..][..rest];
      rest + 1
  }

  /** Expands a term, a compact IRI or an absolute IRI; `None` while it depends on a pending name. */
  function ResolveTerm(value: string, terms: Terms, pending: set<string>, supported: string -> bool): Option<string> {
    if value == "@id" || value == "@type" then Some(value)
    else if value in pending then None
    else if value in terms then Some(terms[value].iri)
    else
      var colon := Colon(value);
      if colon == |value| || value[..colon] in pending then None
      else if value[..colon] in terms && terms[value[..colon]].prefix then
        var expanded := terms[value[..colon]].iri + value[colon + 1..];
        if supported(expanded) then Some(expanded) else None
      else if supported(value) then Some(value)
      else None
  }

  function FieldsOf(definition: Definition): map<string, FieldValue>
    requires definition.Simple? || definition.Expanded?
  {
    if definition.Simple? then map["@id" := JString(definition.id)] else definition.fields
  }

  function ReadTerm(definition: Definition, terms: Terms, pending: set<string>, supported: string -> bool): Reading {
    if definition.Null? then Refused(UnsupportedContextForm)
    else if definition.Other? then Refused(InvalidContext)
    else
      var fields := FieldsOf(definition);
      if !(fields.Keys <= TERM_KEYS) then Refused(UnsupportedContextForm)
      else if "@id" !in fields then Refused(UnsupportedContextForm)
      else if !fields["@id"].JString? then Refused(InvalidContext)
      else
        var id := fields["@id"].s;
        if |id| > 0 && id[0] in {'#', '/', '.'} then Refused(UnsupportedContextForm)
        else if "_:" <= id then Refused(UnsupportedContextForm)
        else if IsKeyword(id) && id !in {"@id", "@type"} then Refused(UnsupportedContextForm)
        else ReadResolved(id, fields, definition.Simple?, terms, pending, supported)
  }

  function ReadResolved(id: string, fields: map<string, FieldValue>, implicitPrefix: bool,
                        terms: Terms, pending: set<string>, supported: string -> bool): Reading
  {
    var iri := ResolveTerm(id, terms, pending, supported);
    if iri.None? then Unresolved
    else if IsKeyword(iri.value) && fields.Keys != {"@id"} then Refused(UnsupportedContextForm)
    else if HasKeywordType(fields) && fields["@type"].s != "@id" then Refused(UnsupportedContextForm)
    else
      var coercion :=
        if "@type" in fields && fields["@type"].JString?
        then ResolveTerm(fields["@type"].s, terms, pending, supported) else None;
      if "@type" in fields && coercion.None? then Unresolved
      else ReadOptions(iri.value, coercion, fields, implicitPrefix)
  }

  predicate HasKeywordType(fields: map<string, FieldValue>) {
    "@type" in fields && fields["@type"].JString? && IsKeyword(fields["@type"].s)
  }

  function ReadOptions(iri: string, coercion: Option<string>, fields: map<string, FieldValue>,
                       implicitPrefix: bool): (r: Reading)
    ensures r.Defined? || r.Refused?
    ensures r.Defined? ==> r.meaning.iri == iri && r.meaning.coercion == coercion
  {
    if "@container" in fields && fields["@container"] == JString("@language") && "@type" in fields
    then Refused(UnsupportedContextForm)
    else if "@container" in fields && fields["@container"] !in {JString("@language"), JString("@list")}
    then Refused(UnsupportedContextForm)
    else if "@prefix" in fields && !fields["@prefix"].JBool? then Refused(InvalidContext)
    else
      Defined(ContextTerm(
                iri, coercion,
                if "@container" in fields then Some(fields["@container"].s) else None,
                ("@prefix" in fields && fields["@prefix"].b)
                || (implicitPrefix && iri != "" && iri[|iri| - 1] in {'#', '/', ':'})))
  }

  /** The bundled contexts switch the default vocabulary off; no other directive is understood. */
  function Directives(context: Inline): set<string> {
    if context.protected.None? && "@vocab" in context.definitions && context.definitions["@vocab"] == Simple("_:")
    then {"@vocab"} else {}
  }

  /** How one name of the inline context reads while the names in `pending` have no meaning yet. */
  function ReadName(context: Inline, name: string, terms: Terms, pending: set<string>): Reading
    requires name in context.definitions
  {
    if name == "" then Refused(InvalidContext)
    else if ':' in name then Refused(UnsupportedContextForm)
    else if IsKeyword(name) then
      if name in Directives(context) then Skipped else Refused(UnsupportedContextForm)
    else
      var reading := ReadTerm(context.definitions[name], terms, pending, context.supported);
      if reading.Defined? && context.protected.Some? && name in context.protected.value
         && context.protected.value[name] != reading.meaning
      then Refused(UnsupportedContextForm) else reading
  }

  // --------------------------------------------------------------- an inline context as a system of definitions

  /** How a name reads once exactly the names of `known` are defined, as `known` says. */
  function ReadKnowing(context: Inline, name: string, known: Terms): Reading
    requires name in context.definitions
  {
    ReadName(context, name, context.inherited + known, context.definitions.Keys - known.Keys)
  }

  /** The new name a term, a compact IRI or an absolute IRI has to wait for. */
  function WaitsFor(context: Inline, value: string): set<string> {
    if value == "@id" || value == "@type" then {}
    else if value in context.definitions then {value}
    else if value in context.inherited then {}
    else
      var colon := Colon(value);
      if colon < |value| && value[..colon] in context.definitions then {value[..colon]} else {}
  }

  /** The new names a definition refers to, in its `@id` and its `@type`. */
  function DependsOn(context: Inline, name: string): set<string>
    requires name in context.definitions
  {
    var definition := context.definitions[name];
    if !definition.Simple? && !definition.Expanded? then {}
    else
      var fields := FieldsOf(definition);
      (if "@id" in fields && fields["@id"].JString? then WaitsFor(context, fields["@id"].s) else {})
      + (if "@type" in fields && fields["@type"].JString? then WaitsFor(context, fields["@type"].s) else {})
  }

  ghost function SystemOf(context: Inline): System {
    System(
      context.definitions.Keys,
      (name, known) => if name in context.definitions then ReadKnowing(context, name, known) else Unresolved,
      name => if name in context.definitions then DependsOn(context, name) else {})
  }

  /** Inherited meanings of the names being defined are dropped first. */
  ghost predicate Separate(context: Inline) {
    context.inherited.Keys !! context.definitions.Keys
  }

  /** Resolution under what is known: stable when more is learnt, and decided by what is waited for. */
  lemma ResolvingWithMore(context: Inline, value: string, some: Terms, all: Terms)
    requires Separate(context) && all.Keys <= context.definitions.Keys && Extends(some, all)
    requires WaitsFor(context, value) <= some.Keys
          || ResolveTerm(value, context.inherited + some, context.definitions.Keys - some.Keys, context.supported).Some?
    ensures WaitsFor(context, value) <= some.Keys
    ensures ResolveTerm(value, context.inherited + all, context.definitions.Keys - all.Keys, context.supported)
         == ResolveTerm(value, context.inherited + some, context.definitions.Keys - some.Keys, context.supported)
  {
  }

  /** A name reads alike under more, if it was decided or if what it refers to was known. */
  lemma ReadingWithMore(context: Inline, name: string, some: Terms, all: Terms)
    requires name in context.definitions && Separate(context)
    requires all.Keys <= context.definitions.Keys && Extends(some, all)
    requires !ReadKnowing(context, name, some).Unresolved? || DependsOn(context, name) <= some.Keys
    ensures ReadKnowing(context, name, all) == ReadKnowing(context, name, some)
    ensures ReadKnowing(context, name, some).Defined? ==> DependsOn(context, name) <= some.Keys
  {
    hide ResolveTerm, ReadOptions, WaitsFor;
    var definition := context.definitions[name];
    if definition.Simple? || definition.Expanded? {
      var fields := FieldsOf(definition);
      if "@id" in fields && fields["@id"].JString? {
        ResolvingIfDecided(context, fields["@id"].s, some, all);
      }
      if "@type" in fields && fields["@type"].JString? {
        ResolvingIfDecided(context, fields["@type"].s, some, all);
      }
    }
  }

  lemma ResolvingIfDecided(context: Inline, value: string, some: Terms, all: Terms)
    requires Separate(context) && all.Keys <= context.definitions.Keys && Extends(some, all)
    ensures var now :=
            ResolveTerm(value, context.inherited + some, context.definitions.Keys - some.Keys, context.supported);
            var later :=
              ResolveTerm(value, context.inherited + all, context.definitions.Keys - all.Keys, context.supported);
            && (now.Some? ==> WaitsFor(context, value) <= some.Keys)
            && (WaitsFor(context, value) <= some.Keys ==> later == now)
  {
    if WaitsFor(context, value) <= some.Keys { ResolvingWithMore(context, value, some, all); }
  }

  /** Inline contexts obey the laws the least fixpoint needs. */
  lemma ContextIsLawful(context: Inline)
    requires Separate(context)
    ensures Stable(SystemOf(context)) && Local(SystemOf(context))
  {
    hide ReadKnowing, DependsOn;
    var system := SystemOf(context);
    forall name, less: Terms, more: Terms | name in system.names && more.Keys <= system.names && Extends(less, more)
      && (!system.read(name, less).Unresolved? || system.needs(name) <= less.Keys)
      ensures system.read(name, more) == system.read(name, less)
    {
      ReadingWithMore(context, name, less, more);
    }
    forall name, known: Terms | name in system.names && known.Keys <= system.names && system.read(name, known).Defined?
      ensures system.needs(name) <= known.Keys
    {
      ReadingWithMore(context, name, known, known);
    }
  }

  /** The recursive expansion of the names of an inline context. */
  ghost function ContextMeaning(context: Inline): Terms {
    Meaning(SystemOf(context))
  }

  ghost predicate Interpretable(context: Inline) {
    WellDefined(SystemOf(context))
  }

  /**
   * An inline context is interpretable exactly when its terms can be given meanings that agree with
   * their definitions and the references among them are acyclic.  Those meanings are unique, so no
   * order of interpretation can matter.
   */
  lemma InterpretableExactlyWhenAcyclic(context: Inline)
    requires Separate(context)
    ensures Interpretable(context) <==> exists meaning, rank :: Solution(SystemOf(context), meaning, rank)
    ensures forall meaning, rank | Solution(SystemOf(context), meaning, rank) :: meaning == ContextMeaning(context)
  {
    hide SystemOf;
    ContextIsLawful(context);
    WellDefinedExactlyWhenAcyclic(SystemOf(context));
  }

  // --------------------------------------------------------------- what an accepted term can be

  /** A term is an alias of a keyword without options, or an absolute IRI the profile supports. */
  predicate Admissible(supported: string -> bool, term: ContextTerm) {
    && (term.iri in {"@id", "@type"} || supported(term.iri))
    && (term.coercion.Some? ==> term.coercion.value in {"@id", "@type"} || supported(term.coercion.value))
    && (term.container.Some? ==> term.container.value in {"@language", "@list"})
    && (term.container == Some("@language") ==> term.coercion.None?)
    && (term.iri in {"@id", "@type"} ==> term.coercion.None? && term.container.None? && !term.prefix)
  }

  lemma ReadingIsAdmissible(context: Inline, name: string, known: Terms)
    requires name in context.definitions && known.Keys <= context.definitions.Keys && Separate(context)
    requires forall other <- context.inherited :: Admissible(context.supported, context.inherited[other])
    requires forall other <- known :: Admissible(context.supported, known[other])
    requires ReadKnowing(context, name, known).Defined?
    ensures Admissible(context.supported, ReadKnowing(context, name, known).meaning)
    ensures name != "" && ':' !in name && !IsKeyword(name)
    ensures context.protected.Some? && name in context.protected.value ==>
              ReadKnowing(context, name, known).meaning == context.protected.value[name]
  {
    hide ResolveTerm, WaitsFor;
    var fields := FieldsOf(context.definitions[name]);
    ResolvingIsAdmissible(context, fields["@id"].s, known);
    if "@type" in fields && fields["@type"].JString? {
      ResolvingIsAdmissible(context, fields["@type"].s, known);
    }
  }

  lemma ResolvingIsAdmissible(context: Inline, value: string, known: Terms)
    requires forall other <- context.inherited :: Admissible(context.supported, context.inherited[other])
    requires forall other <- known :: Admissible(context.supported, known[other])
    ensures var iri :=
            ResolveTerm(value, context.inherited + known, context.definitions.Keys - known.Keys, context.supported);
            iri.Some? ==> iri.value in {"@id", "@type"} || context.supported(iri.value)
  {
  }

  lemma {:induction false} LevelIsAdmissible(context: Inline, depth: nat)
    requires Separate(context)
    requires forall name <- context.inherited :: Admissible(context.supported, context.inherited[name])
    ensures forall name <- Level(SystemOf(context), depth) ::
      && name in context.definitions && name != "" && ':' !in name && !IsKeyword(name)
      && Admissible(context.supported, Level(SystemOf(context), depth)[name])
      && (context.protected.Some? && name in context.protected.value ==>
            Level(SystemOf(context), depth)[name] == context.protected.value[name])
  {
    hide ReadKnowing, Admissible;
    if depth > 0 {
      LevelIsAdmissible(context, depth - 1);
      var known := Level(SystemOf(context), depth - 1);
      forall name <- Level(SystemOf(context), depth)
        ensures && name in context.definitions && name != "" && ':' !in name && !IsKeyword(name)
                && Admissible(context.supported, Level(SystemOf(context), depth)[name])
                && (context.protected.Some? && name in context.protected.value ==>
                      Level(SystemOf(context), depth)[name] == context.protected.value[name])
      {
        LevelReads(SystemOf(context), name, depth);
        ReadingIsAdmissible(context, name, known);
      }
    }
  }

  /** Interpreting a context never changes a protected term, and only adds admissible ones. */
  lemma MeaningIsAdmissible(context: Inline)
    requires Separate(context)
    requires forall name <- context.inherited :: Admissible(context.supported, context.inherited[name])
    ensures forall name <- ContextMeaning(context) ::
      && name != "" && ':' !in name && !IsKeyword(name)
      && Admissible(context.supported, ContextMeaning(context)[name])
      && (context.protected.Some? && name in context.protected.value ==>
            ContextMeaning(context)[name] == context.protected.value[name])
  {
    hide Admissible;
    LevelIsAdmissible(context, |SystemOf(context).names|);
  }

  // --------------------------------------------------------------- the fixpoint loop

  /** The terms in force while a context is interpreted, updated in place. */
  class TermTable {
    var terms: Terms

    constructor (initial: Terms)
      ensures terms == initial
    {
      terms := initial;
    }
  }

  predicate IsOrdinary(value: string) {
    !IsKeyword(value) || value == "@id" || value == "@type"
  }

  /** A directive is never waited for, so it may leave the pending names early. */
  lemma DirectiveIsNeverAwaited(context: Inline, name: string, known: Terms, pending: set<string>)
    requires name in context.definitions
    requires context.definitions.Keys - known.Keys - Directives(context) <= pending
    requires pending <= context.definitions.Keys - known.Keys
    ensures ReadName(context, name, context.inherited + known, pending) == ReadKnowing(context, name, known)
    ensures ReadKnowing(context, name, known).Skipped? <==> name in Directives(context)
  {
    hide ResolveTerm, ReadOptions;
    assert IsKeyword("@vocab") && ':' !in "@vocab";
    var definition := context.definitions[name];
    if definition.Simple? || definition.Expanded? {
      var fields := FieldsOf(definition);
      if "@id" in fields && fields["@id"].JString? && IsOrdinary(fields["@id"].s) {
        DirectiveIsNoPrefix(context, fields["@id"].s, known, pending);
      }
      if "@type" in fields && fields["@type"].JString? && IsOrdinary(fields["@type"].s) {
        DirectiveIsNoPrefix(context, fields["@type"].s, known, pending);
      }
    }
  }

  lemma DirectiveIsNoPrefix(context: Inline, value: string, known: Terms, pending: set<string>)
    requires context.definitions.Keys - known.Keys - {"@vocab"} <= pending <= context.definitions.Keys - known.Keys
    requires IsOrdinary(value)
    ensures ResolveTerm(value, context.inherited + known, pending, context.supported)
         == ResolveTerm(value, context.inherited + known, context.definitions.Keys - known.Keys, context.supported)
  {
    var colon := Colon(value);
    assert IsKeyword("@vocab");
    if 0 < colon < |value| { assert value[..colon][0] == value[0]; }
  }

  /** The state between two names: what is known so far, what is pending, and the table holding both. */
  ghost predicate Underway(context: Inline, known: Terms, terms: Terms, pending: set<string>) {
    && Separate(context)
    && Extends(known, ContextMeaning(context))
    && known.Keys <= context.definitions.Keys
    && terms == context.inherited + known
    && context.definitions.Keys - known.Keys - Directives(context) <= pending <= context.definitions.Keys - known.Keys
  }

  /** Reading the next pending name either moves a step towards the meaning or settles that there is none. */
  lemma StepIsSound(context: Inline, name: string, known: Terms, terms: Terms, pending: set<string>)
    requires Underway(context, known, terms, pending) && name in pending
    ensures match ReadName(context, name, terms, pending)
            case Defined(term) => Underway(context, known[name := term], terms[name := term], pending - {name})
            case Skipped => name in Directives(context) && Underway(context, known, terms, pending - {name})
            case Refused(_) => !Interpretable(context)
            case Unresolved => name !in Directives(context) && ReadKnowing(context, name, known).Unresolved?
  {
    hide ReadName, Directives, ReadKnowing, Meaning, WellDefined, Stable, Local;
    var system := SystemOf(context);
    ContextIsLawful(context);
    DirectiveIsNeverAwaited(context, name, known, pending);
    assert system.read(name, known) == ReadKnowing(context, name, known);
    if system.read(name, known).Refused? { RefusalIsFinal(system, name, known); }
    if system.read(name, known).Defined? { LearningStaysWithin(system, name, known); }
  }

  /** When a whole round decides nothing, the meaning is known; if names are left over, there is none. */
  lemma StuckContext(context: Inline, known: Terms, terms: Terms, pending: set<string>)
    requires Underway(context, known, terms, pending)
    requires forall name <- pending :: name !in Directives(context) && !ReadKnowing(context, name, known).Defined?
    ensures known == ContextMeaning(context) && terms == context.inherited + ContextMeaning(context)
    ensures pending == {} <==> Interpretable(context)
  {
    hide ReadName, Directives, ReadKnowing, Meaning;
    var system := SystemOf(context);
    ContextIsLawful(context);
    forall name <- system.names | name !in known ensures !system.read(name, known).Defined? {
      DirectiveIsNeverAwaited(context, name, known, pending);
      assert name in pending || name in Directives(context)
             || name !in context.definitions.Keys - known.Keys - Directives(context);
    }
    StuckIsMeaning(system, known);
    forall name <- system.names | name !in known ensures system.read(name, known).Skipped? <==> name !in pending {
      DirectiveIsNeverAwaited(context, name, known, pending);
      assert name in pending || name in Directives(context)
             || name !in context.definitions.Keys - known.Keys - Directives(context);
    }
  }

  /** Every refusal of a definition is an error. */
  lemma RefusalsAreErrors(context: Inline, name: string, terms: Terms, pending: set<string>)
    requires name in context.definitions
    ensures var reading := ReadName(context, name, terms, pending);
            reading.Refused? ==> reading.reason.Severity() == Error
  {
    hide ResolveTerm;
    var definition := context.definitions[name];
    if definition.Simple? || definition.Expanded? {
      assert forall iri, coercion ::
        var reading := ReadOptions(iri, coercion, FieldsOf(definition), definition.Simple?);
        reading.Refused? ==> reading.reason.Severity() == Error;
    }
  }

  // --------------------------------------------------------------- the rounds

  /** A round so far: the table, the names still pending, whether it resolved any, and its remarks. */
  datatype Round = Round(terms: Terms, pending: set<string>, resolved: bool, remarks: seq<Diagnostic>)

  function AfterName(context: Inline, name: string, round: Round): (after: Round)
    requires round.pending <= context.definitions.Keys && AllErrors(round.remarks)
    ensures after.pending <= round.pending && AllErrors(after.remarks)
    ensures after.resolved ==> round.resolved || after.pending < round.pending
  {
    if name !in round.pending then round
    else
      RefusalsAreErrors(context, name, round.terms, round.pending);
      match ReadName(context, name, round.terms, round.pending)
      case Skipped => round.(pending := round.pending - {name})
      case Refused(reason) => round.(remarks := round.remarks + [Diagnostic(reason, [Key(name)])])
      case Unresolved => round
      case Defined(term) => Round(round.terms[name := term], round.pending - {name}, true, round.remarks)
  }

  /** Names that are defined early in a round serve the later ones. */
  function AfterNames(context: Inline, order: seq<string>, round: Round): (after: Round)
    requires round.pending <= context.definitions.Keys && AllErrors(round.remarks)
    ensures after.pending <= round.pending && AllErrors(after.remarks)
    ensures after.resolved ==> round.resolved || after.pending < round.pending
  {
    if order == [] then round
    else AfterName(context, order[|order| - 1], AfterNames(context, order[..|order| - 1], round))
  }

  function StartRound(terms: Terms, pending: set<string>): Round {
    Round(terms, pending, false, [])
  }

  /** The names left over when a round makes no progress. */
  function LeftOver(order: seq<string>, pending: set<string>): (remarks: seq<Diagnostic>)
    ensures AllErrors(remarks)
    ensures remarks == [] <==> forall name <- order :: name !in pending
  {
    if order == [] then []
    else
      var before, last := LeftOver(order[..|order| - 1], pending), order[|order| - 1];
      if last in pending then before + [Diagnostic(InvalidContext, [Key(last)])] else before
  }

  /** The table and the remarks once no round can follow. */
  function AfterRounds(context: Inline, order: seq<string>, terms: Terms, pending: set<string>)
    : (after: (Terms, seq<Diagnostic>))
    requires pending <= context.definitions.Keys
    ensures AllErrors(after.1)
    decreases pending
  {
    if pending == {} then (terms, [])
    else
      var round := AfterNames(context, order, StartRound(terms, pending));
      if round.remarks != [] then (round.terms, round.remarks)
      else if !round.resolved then (round.terms, LeftOver(order, round.pending))
      else AfterRounds(context, order, round.terms, round.pending)
  }

  function Interpreted(context: Inline, order: seq<string>): (after: (Terms, seq<Diagnostic>))
    ensures AllErrors(after.1)
  {
    AfterRounds(context, order, context.inherited, context.definitions.Keys)
  }

  /**
   * One pass over pending names: what is known grows inside the meaning; one that remarks on a name
   * proves that there is no interpretation, and one that resolves nothing has decided nothing.
   */
  lemma {:induction false} RoundIsSound(context: Inline, order: seq<string>, known: Terms, start: Round)
    returns (learnt: Terms)
    requires Underway(context, known, start.terms, start.pending)
    requires start == StartRound(start.terms, start.pending)
    ensures var round := AfterNames(context, order, start);
            && Underway(context, learnt, round.terms, round.pending)
            && (round.remarks != [] ==> !Interpretable(context))
            && (round.remarks == [] && !round.resolved ==>
                  forall name <- order | name in round.pending ::
                    name !in Directives(context) && ReadKnowing(context, name, learnt).Unresolved?)
  {
    hide ReadName, Directives, ContextMeaning, Interpretable, ReadKnowing, Underway;
    assert start.pending <= context.definitions.Keys by {
      PendingAreDefined(context, known, start.terms, start.pending);
    }
    learnt := known;
    if order != [] {
      var before, name := order[..|order| - 1], order[|order| - 1];
      learnt := RoundIsSound(context, before, known, start);
      var round := AfterNames(context, before, start);
      if name in round.pending {
        StepIsSound(context, name, learnt, round.terms, round.pending);
        var reading := ReadName(context, name, round.terms, round.pending);
        if reading.Defined? { learnt := learnt[name := reading.meaning]; }
      }
      assert order == before + [name];
    }
  }

  lemma PendingAreDefined(context: Inline, known: Terms, terms: Terms, pending: set<string>)
    requires Underway(context, known, terms, pending)
    ensures pending <= context.definitions.Keys
  {
    hide Directives, ContextMeaning;
  }

  /** The rounds end at the meaning, or with remarks exactly when there is no interpretation. */
  lemma {:induction false} RoundsAreSound(context: Inline, order: seq<string>, known: Terms, terms: Terms,
                                          pending: set<string>)
    requires pending <= context.definitions.Keys
    requires Underway(context, known, terms, pending) && forall name <- pending :: name in order
    ensures var (after, remarks) := AfterRounds(context, order, terms, pending);
            && (remarks == [] <==> Interpretable(context))
            && (remarks == [] ==> after == context.inherited + ContextMeaning(context))
    decreases pending
  {
    hide ReadName, Directives, ContextMeaning, Interpretable, ReadKnowing, Underway, AfterName;
    if pending == {} {
      StuckContext(context, known, terms, pending);
    } else {
      var start := StartRound(terms, pending);
      var round := AfterNames(context, order, start);
      var learnt := RoundIsSound(context, order, known, start);
      if round.remarks == [] {
        if round.resolved {
          RoundsAreSound(context, order, learnt, round.terms, round.pending);
        } else {
          StuckContext(context, learnt, round.terms, round.pending);
        }
      }
    }
  }

  /**
   * Whatever the order, a context is interpreted without a remark exactly when it is interpretable,
   * and then as its meaning.
   */
  lemma InterpretedIsMeaning(context: Inline, order: seq<string>)
    requires Separate(context)
    requires forall name :: name in order <==> name in context.definitions
    ensures var (terms, remarks) := Interpreted(context, order);
            && (remarks == [] <==> Interpretable(context))
            && (remarks == [] ==> terms == context.inherited + ContextMeaning(context))
  {
    hide ReadName, ContextMeaning, Interpretable, AfterRounds;
    Starting(context);
    RoundsAreSound(context, order, map[], context.inherited, context.definitions.Keys);
  }

  lemma Starting(context: Inline)
    requires Separate(context)
    ensures Underway(context, map[], context.inherited, context.definitions.Keys)
  {
    hide ReadName, ContextMeaning;
    assert context.inherited + map[] == context.inherited;
    assert context.definitions.Keys - {} == context.definitions.Keys;
  }

  // --------------------------------------------------------------- the loop

  /** One pass over the pending names, in order. */
  method RunRound(context: Inline, order: seq<string>, path: FieldPath, table: TermTable, reporter: Reporter,
                  pending: set<string>, ghost known: Terms)
    returns (remaining: set<string>, resolved: bool, valid: bool, ghost learnt: Terms)
    requires reporter.Valid() && pending <= context.definitions.Keys
    requires Underway(context, known, table.terms, pending) && forall name <- pending :: name in order
    modifies table, reporter
    ensures var round := AfterNames(context, order, StartRound(old(table.terms), pending));
            && reporter.Valid() && reporter.reported == old(reporter.reported) + Located(path, round.remarks)
            && (table.terms, remaining, resolved, valid)
                 == (round.terms, round.pending, round.resolved, round.remarks == [])
    ensures remaining <= pending && (resolved ==> remaining < pending)
    ensures Underway(context, learnt, table.terms, remaining)
    ensures !valid ==> !Interpretable(context)
    ensures valid && !resolved ==> learnt == ContextMeaning(context) && (remaining == {} <==> Interpretable(context))
  {
    hide ReadName, Directives, ContextMeaning, Interpretable, ReadKnowing, Underway, Shown, Finished, Located;
    ghost var start := StartRound(table.terms, pending);
    remaining, resolved, valid := pending, false, true;
    NothingLocated(path);
    for i := 0 to |order|
      invariant reporter.Valid()
      invariant var round := AfterNames(context, order[..i], start);
                && reporter.reported == old(reporter.reported) + Located(path, round.remarks)
                && (table.terms, remaining, resolved, valid)
                     == (round.terms, round.pending, round.resolved, round.remarks == [])
    {
      var name := order[i];
      assert order[..i + 1][..i] == order[..i];
      if name !in remaining { continue; }
      match ReadName(context, name, table.terms, remaining)
      case Skipped =>
        remaining := remaining - {name};
      case Refused(reason) =>
        OneMoreLocated(path, AfterNames(context, order[..i], start).remarks, Diagnostic(reason, [Key(name)]));
        reporter.Report(Diagnostic(reason, path + [Key(name)]));
        valid := false;
      case Unresolved =>
      case Defined(term) =>
        table.terms := table.terms[name := term];
        remaining := remaining - {name};
        resolved := true;
    }
    assert order[..|order|] == order;
    learnt := RoundIsSound(context, order, known, start);
    if valid && !resolved { StuckContext(context, learnt, table.terms, remaining); }
  }

  method ReportLeftOver(order: seq<string>, path: FieldPath, reporter: Reporter, pending: set<string>)
    returns (valid: bool)
    requires reporter.Valid()
    modifies reporter
    ensures reporter.Valid()
    ensures reporter.reported == old(reporter.reported) + Located(path, LeftOver(order, pending))
    ensures valid <==> LeftOver(order, pending) == []
  {
    hide Shown, Finished, Located;
    NothingLocated(path);
    valid := true;
    for i := 0 to |order|
      invariant reporter.Valid()
      invariant reporter.reported == old(reporter.reported) + Located(path, LeftOver(order[..i], pending))
      invariant valid <==> LeftOver(order[..i], pending) == []
    {
      assert order[..i + 1][..i] == order[..i];
      if order[i] in pending {
        OneMoreLocated(path, LeftOver(order[..i], pending), Diagnostic(InvalidContext, [Key(order[i])]));
        reporter.Report(Diagnostic(InvalidContext, path + [Key(order[i])]));
        valid := false;
      }
    }
    assert order[..|order|] == order;
  }

  /**
   * Interprets an inline context into `table`, visiting its names in `order` in every round.  Whether
   * it succeeds and what the table then holds does not depend on that order: it is the context's
   * meaning, or a refusal exactly when some name has none.
   */
  method ApplyContextTerms(
      definitions: map<string, Definition>, order: seq<string>, path: FieldPath, table: TermTable,
      protected: Option<Terms>, supported: string -> bool, reporter: Reporter)
    returns (valid: bool)
    requires reporter.Valid()
    requires forall name :: name in order <==> name in definitions
    modifies table, reporter
    ensures reporter.Valid()
    ensures var context := Inline(definitions, old(table.terms) - definitions.Keys, protected, supported);
            && valid == Interpretable(context)
            && (valid ==> table.terms == context.inherited + ContextMeaning(context))
            && table.terms == Interpreted(context, order).0
            && reporter.reported == old(reporter.reported) + Located(path, Interpreted(context, order).1)
            && (valid <==> reporter.reported == old(reporter.reported))
  {
    hide ReadName, Directives, ContextMeaning, Interpretable, ReadKnowing, Shown, Finished, Underway, AfterNames,
         Located;
    table.terms := table.terms - definitions.Keys;
    var context := Inline(definitions, table.terms, protected, supported);
    var pending := definitions.Keys;
    ghost var known: Terms := map[];
    Starting(context);
    InterpretedIsMeaning(context, order);
    NothingLocated(path);
    valid := true;
    while pending != {}
      invariant reporter.Valid() && pending <= definitions.Keys
      invariant valid ==> Underway(context, known, table.terms, pending)
      invariant valid ==> Interpreted(context, order) == AfterRounds(context, order, table.terms, pending)
      invariant valid ==> reporter.reported == old(reporter.reported)
      invariant !valid ==> Interpreted(context, order).1 != [] && table.terms == Interpreted(context, order).0
      invariant !valid ==> reporter.reported == old(reporter.reported) + Located(path, Interpreted(context, order).1)
      decreases pending, if valid then 1 else 0
    {
      if !valid { return false; }
      var resolved;
      pending, resolved, valid, known := RunRound(context, order, path, table, reporter, pending, known);
      if !resolved && pending != {} && valid {
        valid := ReportLeftOver(order, path, reporter, pending);
      }
    }
  }
}
