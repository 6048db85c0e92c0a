/** Diagnostics of the document checker and the collector that caps them. */
module Diagnostics {

  datatype PathPart = Key(name: string) | Index(index: nat)
  type FieldPath = seq<PathPart>

  datatype Category = Vocabulary | Authority | Support | Compatibility
  datatype Severity = Error | Warning

  datatype Reason =
    | InvalidDocumentRoot | NonJsonValue | InvalidValueShape | InvalidIri | InvalidDatetime
    | InvalidMultiplicity | PropertyNotApplicable | InvalidContext
    | UnauthorizedLocalIdentity | ServerOwnedFieldConflict
    | ContextUnavailableOffline | UnsupportedContextForm | UnsupportedType | UnsupportedProperty
    | UnsupportedValueForm | ProcessingLimitExceeded | DiagnosticLimitReached
    | ImplicitActivityStreamsContext | ExtensionPropertyUnchecked | EmptyPropertyList | AbsentIdentifier
  {
    function Category(): Category {
      match this
      case InvalidDocumentRoot | NonJsonValue | InvalidValueShape | InvalidIri | InvalidDatetime => Vocabulary
      case InvalidMultiplicity | PropertyNotApplicable | InvalidContext => Vocabulary
      case UnauthorizedLocalIdentity | ServerOwnedFieldConflict => Authority
      case ContextUnavailableOffline | UnsupportedContextForm | UnsupportedType | UnsupportedProperty => Support
      case UnsupportedValueForm | ProcessingLimitExceeded | DiagnosticLimitReached => Support
      case _ => Compatibility
    }

    function Severity(): Severity {
      if Category() == Compatibility then Warning else Error
    }
  }

  datatype Diagnostic = Diagnostic(reason: Reason, path: FieldPath)

  const MAXIMUM_DIAGNOSTICS := 100

  const LIMIT_MARKER := Diagnostic(DiagnosticLimitReached, [])

  /** What a run that reported `reports`, in order, shows. */
  function Shown(reports: seq<Diagnostic>): seq<Diagnostic> {
    if |reports| <= MAXIMUM_DIAGNOSTICS then reports
    else reports[..MAXIMUM_DIAGNOSTICS - 1] + [LIMIT_MARKER]
  }

  predicate HasSupport(reports: seq<Diagnostic>) {
    exists d <- reports :: d.reason.Category() == Support
  }

  predicate HasError(reports: seq<Diagnostic>) {
    exists d <- reports :: d.reason.Severity() == Error
  }

  /** Whether such a run counts as complete. */
  predicate Finished(reports: seq<Diagnostic>) {
    |reports| <= MAXIMUM_DIAGNOSTICS && !HasSupport(reports)
  }

  /** Nothing reported after the limit was exceeded can change what is shown. */
  lemma ShownIgnoresTail(reports: seq<Diagnostic>, tail: seq<Diagnostic>)
    requires |reports| > MAXIMUM_DIAGNOSTICS
    ensures Shown(reports + tail) == Shown(reports)
    ensures Finished(reports + tail) == Finished(reports)
  {
    assert (reports + tail)[..MAXIMUM_DIAGNOSTICS - 1] == reports[..MAXIMUM_DIAGNOSTICS - 1];
  }

  /** The shown list is error-free and complete exactly when the whole run was, and fitted. */
  lemma CleanShown(reports: seq<Diagnostic>)
    ensures Finished(reports) && !HasError(Shown(reports)) <==> !HasError(reports) && |reports| <= MAXIMUM_DIAGNOSTICS
  {
    if |reports| > MAXIMUM_DIAGNOSTICS {
    } else if HasSupport(reports) {
      var d :| d in reports && d.reason.Category() == Support;
      assert d.reason.Severity() == Error;
    }
  }

  predicate AllErrors(reports: seq<Diagnostic>) {
    forall d <- reports :: d.reason.Severity() == Error
  }

  /** Remarks about a value that lies at `path`; their own paths start at the value. */
  function Located(path: FieldPath, remarks: seq<Diagnostic>): (reports: seq<Diagnostic>)
    ensures |reports| == |remarks|
    ensures forall i | 0 <= i < |remarks| :: reports[i] == Diagnostic(remarks[i].reason, path + remarks[i].path)
    ensures AllErrors(remarks) ==> AllErrors(reports)
  {
    seq(|remarks|, i requires 0 <= i < |remarks| => Diagnostic(remarks[i].reason, path + remarks[i].path))
  }

  lemma NothingLocated(path: FieldPath)
    ensures Located(path, []) == []
  {
  }

  lemma OneMoreLocated(path: FieldPath, remarks: seq<Diagnostic>, d: Diagnostic)
    ensures Located(path, remarks + [d]) == Located(path, remarks) + [Diagnostic(d.reason, path + d.path)]
  {
  }

  lemma OneLocated(path: FieldPath, d: Diagnostic)
    ensures Located(path, [d]) == [Diagnostic(d.reason, path + d.path)]
    ensures path + [] == path
  {
  }

  lemma LocatedConcat(path: FieldPath, some: seq<Diagnostic>, more: seq<Diagnostic>)
    ensures Located(path, some + more) == Located(path, some) + Located(path, more)
  {
  }

  lemma LocatedTwice(path: FieldPath, inner: FieldPath, remarks: seq<Diagnostic>)
    ensures Located(path, Located(inner, remarks)) == Located(path + inner, remarks)
  {
    forall i | 0 <= i < |remarks|
      ensures Located(path, Located(inner, remarks))[i] == Located(path + inner, remarks)[i]
    {
      assert path + (inner + remarks[i].path) == path + inner + remarks[i].path;
    }
  }

  /** Collects the diagnostics and completion state of one validation call. */
  class Reporter {
    var diagnostics: seq<Diagnostic>
    var complete: bool
    var truncated: bool
    /** Every report of the call, shown or not. */
    ghost var reported: seq<Diagnostic>

    ghost predicate Valid()
      reads this
    {
      && diagnostics == Shown(reported)
      && complete == Finished(reported)
      && truncated == (|reported| > MAXIMUM_DIAGNOSTICS)
    }

    constructor ()
      ensures Valid() && reported == []
    {
      diagnostics, complete, truncated, reported := [], true, false, [];
    }

    method Report(d: Diagnostic)
      requires Valid()
      modifies this
      ensures Valid() && reported == old(reported) + [d]
    {
      ghost var before := reported;
      reported := reported + [d];
      if truncated {
        ShownIgnoresTail(before, [d]);
        return;
      }
      if |diagnostics| == MAXIMUM_DIAGNOSTICS {
        complete := false;
        truncated := true;
        diagnostics := diagnostics[MAXIMUM_DIAGNOSTICS - 1 := LIMIT_MARKER];
        return;
      }
      if d.reason.Category() == Support {
        complete := false;
        assert d in reported;
      } else {
        assert HasSupport(reported) ==> HasSupport(before);
        assert forall x <- before :: x in reported;
      }
      diagnostics := diagnostics + [d];
    }
  }
}
