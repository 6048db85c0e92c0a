/** The context of a document: inherited, assumed, or built up from the entries of its `@context`. */
module DocumentContexts {
  import opened Wrappers
  import opened Diagnostics
  import opened Definitions
  import opened ContextTerms
  import Words = TermMeanings

  /** One entry of an `@context`; the names of an inline one come in the order in which they are visited. */
  datatype Entry =
    | Named(url: string)
    | InlineTerms(definitions: map<string, Definition>, order: seq<string>)
    | NullEntry | ListEntry | ScalarEntry
    | Unreadable(at: FieldPath)
  {
    ghost predicate Valid() {
      InlineTerms? ==> forall name :: name in order <==> name in definitions
    }
  }

  /** The value of `@context`: a single entry, or a list of entries; `None` is one that cannot be read. */
  datatype ContextValue = One(entry: Entry) | Many(entries: seq<Option<Entry>>)

  const ACTIVITY_STREAMS := "https://www.w3.org/ns/activitystreams"
  const INSECURE_ACTIVITY_STREAMS := "http://www.w3.org/ns/activitystreams"

  /** The contexts that are available offline, and the test for supported IRIs. */
  datatype Tables = Tables(bundled: map<string, Terms>, supported: string -> bool)
  {
    function Standard(): Terms {
      if ACTIVITY_STREAMS in bundled then bundled[ACTIVITY_STREAMS] else map[]
    }
  }

  function Canonical(url: string): string {
    if url == INSECURE_ACTIVITY_STREAMS then ACTIVITY_STREAMS else url
  }

  // ------------------------------------------------------------ what a context means

  /** The terms after one more entry, if it is understood. */
  ghost function AfterEntry(tables: Tables, terms: Terms, entry: Entry): Option<Terms> {
    match entry
    case Named(url) =>
      if Canonical(url) in tables.bundled then Some(terms + tables.bundled[Canonical(url)]) else None
    case InlineTerms(definitions, _) =>
      var context := InlineOver(tables, terms, definitions);
      if Interpretable(context) then Some(context.inherited + ContextMeaning(context)) else None
    case _ => None
  }

  function InlineOver(tables: Tables, terms: Terms, definitions: map<string, Definition>): Inline {
    Inline(definitions, terms - definitions.Keys, Some(tables.Standard()), tables.supported)
  }

  ghost function AfterEntries(tables: Tables, terms: Terms, entries: seq<Option<Entry>>): Option<Terms> {
    if entries == [] then Some(terms)
    else
      var before := AfterEntries(tables, terms, entries[..|entries| - 1]);
      var last := entries[|entries| - 1];
      if before.None? || last.None? then None else AfterEntry(tables, before.value, last.value)
  }

  function EntriesOf(value: ContextValue): seq<Option<Entry>> {
    match value
    case One(entry) => [Some(entry)]
    case Many(entries) => entries
  }

  predicate Covers(terms: Terms, standard: Terms) {
    forall name <- standard :: name in terms && terms[name] == standard[name]
  }

  /** The context a document is read in; `None` when its `@context` is not understood or drops standard terms. */
  ghost function ContextOf(tables: Tables, value: Option<ContextValue>, inherited: Option<Terms>): Option<Terms> {
    match value
    case None => Some(if inherited.Some? then inherited.value else tables.Standard())
    case Some(own) =>
      var terms := AfterEntries(tables, if inherited.Some? then inherited.value else map[], EntriesOf(own));
      if terms.Some? && Covers(terms.value, tables.Standard()) then terms else None
  }

  /**
   * The name of a bundled context adds its terms, which win over earlier ones; the older spelling of the
   * ActivityStreams context is a name of the same context.
   */
  lemma NamedEntriesInWords(tables: Tables, terms: Terms, url: string, name: string)
    ensures AfterEntry(tables, terms, Named("http://www.w3.org/ns/activitystreams"))
         == AfterEntry(tables, terms, Named("https://www.w3.org/ns/activitystreams"))
    ensures url != "http://www.w3.org/ns/activitystreams" ==>
              var after := AfterEntry(tables, terms, Named(url));
              && (after.Some? <==> url in tables.bundled)
              && (url in tables.bundled && name in tables.bundled[url] ==>
                    name in after.value && after.value[name] == tables.bundled[url][name])
              && (url in tables.bundled && name !in tables.bundled[url] ==>
                    if name in terms then name in after.value && after.value[name] == terms[name]
                    else name !in after.value)
    ensures tables.Standard() ==
              if "https://www.w3.org/ns/activitystreams" in tables.bundled
              then tables.bundled["https://www.w3.org/ns/activitystreams"] else map[]
  {
  }

  /** Inline definitions replace the earlier terms of the same names, and are given meanings next to the others. */
  lemma InlineEntriesInWords(tables: Tables, terms: Terms, definitions: map<string, Definition>, order: seq<string>)
    ensures var context := Inline(definitions, terms - definitions.Keys, Some(tables.Standard()), tables.supported);
            var after := AfterEntry(tables, terms, InlineTerms(definitions, order));
            && (after.Some? <==> exists meaning, rank :: Words.Assignment(context, meaning, rank))
            && (forall meaning, rank | Words.Assignment(context, meaning, rank) ::
                  && after.Some? && after.value.Keys == (terms.Keys - definitions.Keys) + meaning.Keys
                  && forall name <- after.value ::
                       after.value[name] == if name in meaning then meaning[name] else terms[name])
  {
    hide Interpretable, ContextMeaning, Words.Assignment;
    var context := InlineOver(tables, terms, definitions);
    Words.InterpretableInWords(context);
  }

  /** An empty list of entries adds nothing to what is inherited, and without that leaves the standard terms out. */
  lemma EmptyContextsInWords(tables: Tables, inherited: Terms)
    ensures Covers(inherited, tables.Standard()) ==>
              ContextOf(tables, Some(Many([])), Some(inherited)) == Some(inherited)
    ensures tables.Standard() != map[] ==> ContextOf(tables, Some(Many([])), None).None?
    ensures ContextOf(tables, None, Some(inherited)) == Some(inherited)
    ensures ContextOf(tables, None, None) == Some(tables.Standard())
  {
    if tables.Standard() != map[] {
      assert exists name :: name in tables.Standard();
    }
  }

  /** A context is refused when an entry is, and when a standard term is missing or has another meaning. */
  lemma OwnContextsInWords(tables: Tables, entries: seq<Option<Entry>>, inherited: Option<Terms>)
    ensures var terms := AfterEntries(tables, if inherited.Some? then inherited.value else map[], entries);
            ContextOf(tables, Some(Many(entries)), inherited) ==
              if terms.Some?
                 && (forall name <- tables.Standard() ::
                       name in terms.value && terms.value[name] == tables.Standard()[name])
              then terms else None
  {
  }

  /** Every context in use contains the standard vocabulary. */
  lemma ContextsCoverStandard(tables: Tables, value: Option<ContextValue>, inherited: Option<Terms>)
    requires inherited.Some? ==> Covers(inherited.value, tables.Standard())
    ensures var terms := ContextOf(tables, value, inherited); terms.Some? ==> Covers(terms.value, tables.Standard())
  {
  }

  ghost predicate AllAdmissible(tables: Tables, terms: Terms) {
    forall name <- terms :: Admissible(tables.supported, terms[name])
  }

  /** ... and only terms the profile admits. */
  lemma ContextsAreAdmissible(tables: Tables, value: Option<ContextValue>, inherited: Option<Terms>)
    requires forall url <- tables.bundled :: AllAdmissible(tables, tables.bundled[url])
    requires inherited.Some? ==> AllAdmissible(tables, inherited.value)
    ensures var terms := ContextOf(tables, value, inherited); terms.Some? ==> AllAdmissible(tables, terms.value)
  {
    if value.Some? {
      EntriesAreAdmissible(tables, if inherited.Some? then inherited.value else map[], EntriesOf(value.value));
    }
  }

  lemma {:induction false} EntriesAreAdmissible(tables: Tables, terms: Terms, entries: seq<Option<Entry>>)
    requires forall url <- tables.bundled :: AllAdmissible(tables, tables.bundled[url])
    requires AllAdmissible(tables, terms)
    ensures var after := AfterEntries(tables, terms, entries); after.Some? ==> AllAdmissible(tables, after.value)
  {
    hide Admissible, Interpretable, ContextMeaning;
    if entries != [] {
      var before, last := entries[..|entries| - 1], entries[|entries| - 1];
      EntriesAreAdmissible(tables, terms, before);
      var known := AfterEntries(tables, terms, before);
      if known.Some? && last.Some? && last.value.InlineTerms? {
        MeaningIsAdmissible(InlineOver(tables, known.value, last.value.definitions));
      }
    }
  }

  // ------------------------------------------------------------ how a context is read

  /** The terms after one more entry was read, and the remarks on it. */
  function ReadEntry(tables: Tables, terms: Terms, entry: Entry): (after: (Terms, seq<Diagnostic>))
    ensures AllErrors(after.1)
  {
    match entry
    case Named(url) =>
      if Canonical(url) in tables.bundled then (terms + tables.bundled[Canonical(url)], [])
      else (terms, [Diagnostic(ContextUnavailableOffline, [])])
    case InlineTerms(definitions, order) => Interpreted(InlineOver(tables, terms, definitions), order)
    case Unreadable(at) => (terms, [Diagnostic(NonJsonValue, at)])
    case ScalarEntry => (terms, [Diagnostic(InvalidContext, [])])
    case NullEntry | ListEntry => (terms, [Diagnostic(UnsupportedContextForm, [])])
  }

  /** The entries of a list are read in turn, each whatever became of those before. */
  function ReadEntries(tables: Tables, terms: Terms, entries: seq<Option<Entry>>): (after: (Terms, seq<Diagnostic>))
    ensures AllErrors(after.1)
  {
    if entries == [] then (terms, [])
    else
      var last := |entries| - 1;
      var (before, remarks) := ReadEntries(tables, terms, entries[..last]);
      match entries[last]
      case None => (before, remarks + [Diagnostic(NonJsonValue, [Index(last)])])
      case Some(entry) =>
        var (after, more) := ReadEntry(tables, before, entry);
        (after, remarks + Located([Index(last)], more))
  }

  function ReadValue(tables: Tables, terms: Terms, value: ContextValue): (after: (Terms, seq<Diagnostic>))
    ensures AllErrors(after.1)
  {
    match value
    case One(entry) => ReadEntry(tables, terms, entry)
    case Many(entries) => ReadEntries(tables, terms, entries)
  }

  /** The context a document is read in, if any, and the remarks on its `@context`. */
  function ReadContext(tables: Tables, value: Option<ContextValue>, inherited: Option<Terms>)
    : (reading: (Option<Terms>, seq<Diagnostic>))
    ensures reading.0.None? ==> reading.1 != [] && AllErrors(reading.1)
  {
    match value
    case None =>
      if inherited.Some? then (inherited, [])
      else (Some(tables.Standard()), [Diagnostic(ImplicitActivityStreamsContext, [])])
    case Some(own) =>
      var (terms, remarks) := ReadValue(tables, if inherited.Some? then inherited.value else map[], own);
      if remarks != [] then (None, remarks)
      else if !Covers(terms, tables.Standard()) then (None, [Diagnostic(UnsupportedContextForm, [])])
      else (Some(terms), [])
  }

  /** A refused entry is remarked on at itself, by what it is; only inline terms are remarked on below. */
  lemma RefusedEntriesInWords(tables: Tables, terms: Terms, entry: Entry)
    ensures var remarks := ReadEntry(tables, terms, entry).1;
            && (entry.Named? && remarks != [] ==> remarks == [Diagnostic(ContextUnavailableOffline, [])])
            && (entry == NullEntry || entry == ListEntry ==> remarks == [Diagnostic(UnsupportedContextForm, [])])
            && (entry == ScalarEntry ==> remarks == [Diagnostic(InvalidContext, [])])
            && (entry.Unreadable? ==> remarks == [Diagnostic(NonJsonValue, entry.at)])
            && (entry.InlineTerms? ==>
                  remarks == Interpreted(Inline(entry.definitions, terms - entry.definitions.Keys,
                                                Some(tables.Standard()), tables.supported), entry.order).1)
  {
  }

  /** A remark on an entry of a list, at the position of that entry. */
  ghost predicate IsRemarkAt(tables: Tables, entries: seq<Option<Entry>>, i: nat, d: Diagnostic)
    requires i < |entries|
  {
    match entries[i]
    case None => d == Diagnostic(NonJsonValue, [Index(i)])
    case Some(entry) =>
      exists terms, remark ::
        remark in ReadEntry(tables, terms, entry).1 && d == Diagnostic(remark.reason, [Index(i)] + remark.path)
  }

  lemma {:induction false} ListRemarksInWords(tables: Tables, terms: Terms, entries: seq<Option<Entry>>)
    ensures forall d <- ReadEntries(tables, terms, entries).1 ::
              exists i: nat :: i < |entries| && IsRemarkAt(tables, entries, i, d)
  {
    hide ReadEntry;
    if entries != [] {
      var last := |entries| - 1;
      var (before, remarks) := ReadEntries(tables, terms, entries[..last]);
      ListRemarksInWords(tables, terms, entries[..last]);
      forall d <- ReadEntries(tables, terms, entries).1
        ensures exists i: nat :: i < |entries| && IsRemarkAt(tables, entries, i, d)
      {
        if d in remarks {
          var i: nat :| i < last && IsRemarkAt(tables, entries[..last], i, d);
          assert IsRemarkAt(tables, entries, i, d);
        } else {
          LastRemark(tables, before, entries, d);
          assert IsRemarkAt(tables, entries, last, d);
        }
      }
    }
  }

  lemma LastRemark(tables: Tables, before: Terms, entries: seq<Option<Entry>>, d: Diagnostic)
    requires entries != []
    requires var last := |entries| - 1;
             match entries[last]
             case None => d == Diagnostic(NonJsonValue, [Index(last)])
             case Some(entry) => d in Located([Index(last)], ReadEntry(tables, before, entry).1)
    ensures IsRemarkAt(tables, entries, |entries| - 1, d)
  {
    hide ReadEntry;
    var last := |entries| - 1;
    if entries[last].Some? {
      var remarks := ReadEntry(tables, before, entries[last].value).1;
      var k :| 0 <= k < |remarks| && Located([Index(last)], remarks)[k] == d;
      assert remarks[k] in remarks;
    }
  }

  ghost predicate ValidValue(value: Option<ContextValue>) {
    value.Some? ==> forall entry <- EntriesOf(value.value) :: entry.Some? ==> entry.value.Valid()
  }

  lemma ReadEntryIsMeaning(tables: Tables, terms: Terms, entry: Entry)
    requires entry.Valid()
    ensures var (after, remarks) := ReadEntry(tables, terms, entry);
            && (remarks == [] <==> AfterEntry(tables, terms, entry).Some?)
            && (remarks == [] ==> AfterEntry(tables, terms, entry) == Some(after))
  {
    hide Interpretable, ContextMeaning, Interpreted;
    if entry.InlineTerms? {
      InterpretedIsMeaning(InlineOver(tables, terms, entry.definitions), entry.order);
    }
  }

  lemma {:induction false} ReadEntriesIsMeaning(tables: Tables, terms: Terms, entries: seq<Option<Entry>>)
    requires forall entry <- entries :: entry.Some? ==> entry.value.Valid()
    ensures var (after, remarks) := ReadEntries(tables, terms, entries);
            && (remarks == [] <==> AfterEntries(tables, terms, entries).Some?)
            && (remarks == [] ==> AfterEntries(tables, terms, entries) == Some(after))
  {
    hide AfterEntry, ReadEntry;
    if entries != [] {
      var before, last := entries[..|entries| - 1], entries[|entries| - 1];
      ReadEntriesIsMeaning(tables, terms, before);
      if last.Some? { ReadEntryIsMeaning(tables, ReadEntries(tables, terms, before).0, last.value); }
    }
  }

  /**
   * Reading gives the context the entries mean.  Whenever there is none, the remarks are errors, and
   * otherwise there are none but on an assumed context.
   */
  lemma ReadingIsMeaning(tables: Tables, value: Option<ContextValue>, inherited: Option<Terms>)
    requires ValidValue(value)
    ensures var (terms, remarks) := ReadContext(tables, value, inherited);
            && terms == ContextOf(tables, value, inherited)
            && (terms.None? ==> remarks != [] && AllErrors(remarks))
            && (terms.Some? ==>
                  remarks == if value.None? && inherited.None? then [Diagnostic(ImplicitActivityStreamsContext, [])]
                    else [])
  {
    hide AfterEntry, ReadEntry, Covers;
    if value.Some? {
      var start := if inherited.Some? then inherited.value else map[];
      ReadEntriesIsMeaning(tables, start, EntriesOf(value.value));
      if value.value.One? {
        assert Some(value.value.entry) in EntriesOf(value.value);
        ReadEntryIsMeaning(tables, start, value.value.entry);
        OneEntry(tables, start, value.value.entry);
      }
    }
  }

  lemma OneEntry(tables: Tables, terms: Terms, entry: Entry)
    ensures AfterEntries(tables, terms, [Some(entry)]) == AfterEntry(tables, terms, entry)
  {
    assert [Some(entry)][..0] == [];
    assert AfterEntries(tables, terms, []) == Some(terms);
  }

  // ------------------------------------------------------------ the check

  /** Adds one entry to the terms, or reports why it is not understood. */
  method ApplyContextEntry(tables: Tables, entry: Entry, path: FieldPath, table: TermTable, reporter: Reporter)
    returns (valid: bool)
    requires reporter.Valid() && entry.Valid()
    modifies table, reporter
    ensures reporter.Valid()
    ensures valid == AfterEntry(tables, old(table.terms), entry).Some?
    ensures valid ==> table.terms == AfterEntry(tables, old(table.terms), entry).value
    ensures table.terms == ReadEntry(tables, old(table.terms), entry).0
    ensures reporter.reported == old(reporter.reported) + Located(path, ReadEntry(tables, old(table.terms), entry).1)
    ensures valid <==> reporter.reported == old(reporter.reported)
  {
    hide Interpretable, ContextMeaning, Interpreted, Shown, Finished, Located;
    NothingLocated(path);
    ReadEntryIsMeaning(tables, table.terms, entry);
    match entry {
      case Named(url) =>
        if Canonical(url) !in tables.bundled {
          OneLocated(path, Diagnostic(ContextUnavailableOffline, []));
          reporter.Report(Diagnostic(ContextUnavailableOffline, path));
          return false;
        }
        table.terms := table.terms + tables.bundled[Canonical(url)];
        return true;
      case InlineTerms(definitions, order) =>
        valid := ApplyContextTerms(definitions, order, path, table, Some(tables.Standard()), tables.supported,
                                   reporter);
      case Unreadable(at) =>
        OneLocated(path, Diagnostic(NonJsonValue, at));
        reporter.Report(Diagnostic(NonJsonValue, path + at));
        return false;
      case _ =>
        var reason := if entry.ScalarEntry? then InvalidContext else UnsupportedContextForm;
        OneLocated(path, Diagnostic(reason, []));
        reporter.Report(Diagnostic(reason, path));
        return false;
    }
  }

  /** Applies the entries of a list in turn, each whatever became of those before. */
  method ApplyEntries(tables: Tables, entries: seq<Option<Entry>>, path: FieldPath, table: TermTable,
                      reporter: Reporter)
    returns (valid: bool)
    requires reporter.Valid() && forall entry <- entries :: entry.Some? ==> entry.value.Valid()
    modifies table, reporter
    ensures reporter.Valid()
    ensures var (after, remarks) := ReadEntries(tables, old(table.terms), entries);
            && table.terms == after && (valid <==> remarks == [])
            && reporter.reported == old(reporter.reported) + Located(path, remarks)
  {
    hide ReadEntry, AfterEntry, Shown, Finished, Located;
    ghost var start := table.terms;
    NothingLocated(path);
    valid := true;
    for i := 0 to |entries|
      invariant reporter.Valid()
      invariant var (after, remarks) := ReadEntries(tables, start, entries[..i]);
                && table.terms == after && (valid <==> remarks == [])
                && reporter.reported == old(reporter.reported) + Located(path, remarks)
    {
      assert entries[..i + 1][..i] == entries[..i];
      ghost var remarks := ReadEntries(tables, start, entries[..i]).1;
      match entries[i] {
        case None =>
          OneMoreLocated(path, remarks, Diagnostic(NonJsonValue, [Index(i)]));
          reporter.Report(Diagnostic(NonJsonValue, path + [Index(i)]));
          valid := false;
        case Some(entry) =>
          assert entries[i] in entries;
          ghost var more := ReadEntry(tables, table.terms, entry).1;
          ReadEntryIsMeaning(tables, table.terms, entry);
          LocatedConcat(path, remarks, Located([Index(i)], more));
          LocatedTwice(path, [Index(i)], more);
          var understood := ApplyContextEntry(tables, entry, path + [Index(i)], table, reporter);
          if !understood { valid := false; }
      }
    }
    assert entries[..|entries|] == entries;
  }

  /**
   * Reads the context of a document.  The result is what its entries mean; whenever there is none, an
   * error has been reported at or below `@context`, and otherwise nothing but an assumed context.
   */
  method CheckContext(tables: Tables, value: Option<ContextValue>, path: FieldPath, inherited: Option<Terms>,
                      reporter: Reporter)
    returns (terms: Option<Terms>)
    requires reporter.Valid() && ValidValue(value)
    modifies reporter
    ensures reporter.Valid() && terms == ContextOf(tables, value, inherited)
    ensures var (_, remarks) := ReadContext(tables, value, inherited);
            && reporter.reported == old(reporter.reported) + Located(path + [Key("@context")], remarks)
            && (terms.None? ==> remarks != [] && AllErrors(remarks))
            && (terms.Some? ==>
                  remarks == if value.None? && inherited.None? then [Diagnostic(ImplicitActivityStreamsContext, [])]
                    else [])
  {
    hide AfterEntry, ReadEntry, Shown, Finished, Located, ContextOf;
    var contextPath := path + [Key("@context")];
    ReadingIsMeaning(tables, value, inherited);
    NothingLocated(contextPath);
    if value.None? {
      if inherited.Some? { return inherited; }
      OneLocated(contextPath, Diagnostic(ImplicitActivityStreamsContext, []));
      reporter.Report(Diagnostic(ImplicitActivityStreamsContext, contextPath));
      return Some(tables.Standard());
    }
    var table := new TermTable(if inherited.Some? then inherited.value else map[]);
    var valid;
    match value.value {
      case One(entry) =>
        assert Some(entry) in EntriesOf(value.value);
        ReadEntryIsMeaning(tables, table.terms, entry);
        valid := ApplyContextEntry(tables, entry, contextPath, table, reporter);
      case Many(entries) =>
        valid := ApplyEntries(tables, entries, contextPath, table, reporter);
    }
    if !valid { return None; }
    if !Covers(table.terms, tables.Standard()) {
      OneLocated(contextPath, Diagnostic(UnsupportedContextForm, []));
      reporter.Report(Diagnostic(UnsupportedContextForm, contextPath));
      return None;
    }
    return Some(table.terms);
  }
}
