/**
 * Sets of named definitions that may refer to each other, and what they mean: the least fixpoint of
 * reading every name under the meanings known so far.
 */
module Definitions {
  import opened Wrappers
  import opened Diagnostics

  /** What a term of a JSON-LD context stands for. */
  datatype ContextTerm = ContextTerm(iri: string, coercion: Option<string>, container: Option<string>, prefix: bool)

  type Terms = map<string, ContextTerm>

  datatype Reading = Defined(meaning: ContextTerm) | Skipped | Unresolved | Refused(reason: Reason)

  /**
   * `read(name, known)` reads one definition when exactly the names of `known` have a meaning, and
   * `needs(name)` lists the names it refers to.
   */
  datatype System = System(
    names: set<string>,
    read: (string, Terms) -> Reading,
    needs: string -> set<string>)

  ghost predicate Extends(less: Terms, more: Terms) {
    less.Keys <= more.Keys && forall name <- less :: less[name] == more[name]
  }

  /** Learning more meanings never changes a reading that was already decided. */
  ghost predicate Stable(system: System) {
    forall name, less: Terms, more: Terms | name in system.names && more.Keys <= system.names && Extends(less, more)
      && !system.read(name, less).Unresolved? ::
      system.read(name, more) == system.read(name, less)
  }

  /** A definition reads alike under meanings that agree on what it refers to, and is decided only then. */
  ghost predicate Local(system: System) {
    && (forall name, some: Terms, all: Terms | name in system.names && all.Keys <= system.names && Extends(some, all)
          && system.needs(name) <= some.Keys ::
          system.read(name, some) == system.read(name, all))
    && (forall name, known: Terms | name in system.names && known.Keys <= system.names
          && system.read(name, known).Defined? ::
          system.needs(name) <= known.Keys)
  }

  /** The names that expand without going through more than `depth` definitions. */
  ghost function Level(system: System, depth: nat): Terms {
    if depth == 0 then map[]
    else
      var known := Level(system, depth - 1);
      map name | name in system.names && system.read(name, known).Defined? :: system.read(name, known).meaning
  }

  /** Whatever expands recursively, to any depth. */
  ghost function Meaning(system: System): Terms {
    Level(system, |system.names|)
  }

  /** Every name has a meaning, but for those that may be skipped. */
  ghost predicate WellDefined(system: System) {
    forall name <- system.names ::
      name in Meaning(system) || system.read(name, Meaning(system)).Skipped?
  }

  /** Meanings that agree with the definitions, and an order that no reference violates. */
  ghost predicate Solution(system: System, solution: Terms, rank: map<string, nat>) {
    && solution.Keys <= system.names
    && rank.Keys == solution.Keys
    && (forall name <- system.names ::
          if name in solution then system.read(name, solution) == Defined(solution[name])
          else system.read(name, solution).Skipped?)
    && (forall name, other | name in solution && other in system.needs(name) ::
          other in solution && rank[other] < rank[name])
  }

  // ------------------------------------------------------------ levels

  lemma LevelReads(system: System, name: string, depth: nat)
    ensures name in Level(system, depth) <==>
            depth > 0 && name in system.names && system.read(name, Level(system, depth - 1)).Defined?
    ensures name in Level(system, depth) ==>
              system.read(name, Level(system, depth - 1)) == Defined(Level(system, depth)[name])
  {
  }

  lemma {:induction false} LevelsGrow(system: System, depth: nat)
    requires Stable(system)
    ensures Level(system, depth).Keys <= system.names
    ensures Extends(Level(system, depth), Level(system, depth + 1))
  {
    hide Stable;
    if depth > 0 {
      LevelsGrow(system, depth - 1);
      forall name <- Level(system, depth)
        ensures system.read(name, Level(system, depth)) == system.read(name, Level(system, depth - 1))
      {
        ReadingIsStable(system, name, Level(system, depth - 1), Level(system, depth));
      }
    }
  }

  lemma ReadingIsStable(system: System, name: string, less: Terms, more: Terms)
    requires Stable(system) && name in system.names && more.Keys <= system.names && Extends(less, more)
    requires !system.read(name, less).Unresolved?
    ensures system.read(name, more) == system.read(name, less)
  {
  }

  lemma {:induction false} LevelsExtend(system: System, depth: nat, deeper: nat)
    requires Stable(system) && depth <= deeper
    ensures Extends(Level(system, depth), Level(system, deeper))
    decreases deeper - depth
  {
    hide Stable;
    if depth < deeper {
      LevelsGrow(system, depth);
      LevelsExtend(system, depth + 1, deeper);
    }
  }

  /** A level either adds a name or is the last one. */
  lemma {:induction false} LevelsFill(system: System, depth: nat)
    requires Stable(system)
    ensures |Level(system, depth)| >= depth || Level(system, depth + 1) == Level(system, depth)
  {
    hide Stable;
    if depth > 0 {
      LevelsFill(system, depth - 1);
      LevelsGrow(system, depth - 1);
      LevelsGrow(system, depth);
      var less, more := Level(system, depth - 1), Level(system, depth);
      if |less| >= depth - 1 && more != less {
        assert less.Keys != more.Keys;
        CardinalityBounds(less.Keys, more.Keys);
      }
    }
  }

  lemma CardinalityBounds(less: set<string>, more: set<string>)
    requires less <= more
    ensures |less| <= |more|
    ensures |less| == |more| ==> less == more
  {
    assert more == less + (more - less);
    if less != more { assert more - less != {}; }
  }

  /** The meaning is a fixpoint: reading any name under it gives what it already says. */
  lemma MeaningIsFixpoint(system: System, name: string)
    requires Stable(system) && name in system.names
    ensures Meaning(system).Keys <= system.names
    ensures name in Meaning(system) <==> system.read(name, Meaning(system)).Defined?
    ensures name in Meaning(system) ==> system.read(name, Meaning(system)) == Defined(Meaning(system)[name])
  {
    hide Stable;
    var n := |system.names|;
    LevelsFill(system, n);
    LevelsGrow(system, n);
    LevelsGrow(system, n + 1);
    CardinalityBounds(Level(system, n).Keys, system.names);
    assert Level(system, n) == Level(system, n + 1);
  }

  /** ... and the least one: anything closed under reading contains every level. */
  lemma {:induction false} MeaningIsLeast(system: System, closed: Terms, depth: nat)
    requires Stable(system) && closed.Keys <= system.names
    requires forall name <- system.names | system.read(name, closed).Defined? ::
      name in closed && closed[name] == system.read(name, closed).meaning
    ensures Extends(Level(system, depth), closed)
  {
    if depth > 0 {
      MeaningIsLeast(system, closed, depth - 1);
      forall name <- Level(system, depth)
        ensures name in closed && closed[name] == Level(system, depth)[name]
      {
        LevelReads(system, name, depth);
        ReadingIsStable(system, name, Level(system, depth - 1), closed);
      }
      hide Stable;
    }
  }

  lemma {:induction false} LevelsStop(system: System, deeper: nat)
    requires Stable(system) && |system.names| <= deeper
    ensures Level(system, deeper) == Meaning(system)
    decreases deeper
  {
    hide Stable;
    if |system.names| < deeper {
      LevelsStop(system, deeper - 1);
      forall name <- system.names
        ensures name in Meaning(system) <==> system.read(name, Meaning(system)).Defined?
        ensures name in Meaning(system) ==> system.read(name, Meaning(system)) == Defined(Meaning(system)[name])
      {
        MeaningIsFixpoint(system, name);
      }
      LevelsGrow(system, |system.names|);
      assert Level(system, deeper) == Meaning(system);
    }
  }

  // ------------------------------------------------------------ acyclic references

  /** The first level at which a name expands. */
  ghost function FirstLevel(system: System, name: string, depth: nat): nat {
    if depth > 0 && name in Level(system, depth - 1) then FirstLevel(system, name, depth - 1) else depth
  }

  lemma {:induction false} FirstLevelIsFirst(system: System, name: string, depth: nat, deeper: nat)
    requires Stable(system) && depth <= deeper && name in Level(system, depth)
    ensures var first := FirstLevel(system, name, deeper);
            0 < first <= depth && name in Level(system, first) && name !in Level(system, first - 1)
    decreases deeper
  {
    hide Stable, Level;
    LevelReads(system, name, depth);
    LevelsExtend(system, depth, deeper);
    if depth < deeper {
      LevelsExtend(system, depth, deeper - 1);
      FirstLevelIsFirst(system, name, depth, deeper - 1);
    } else if name in Level(system, depth - 1) {
      FirstLevelIsFirst(system, name, depth - 1, depth - 1);
    }
  }

  ghost function Ranks(system: System): map<string, nat> {
    map name | name in Meaning(system) :: FirstLevel(system, name, |system.names|)
  }

  lemma ReferencesComeFirst(system: System, name: string, other: string)
    requires Stable(system) && Local(system)
    requires name in Meaning(system) && other in system.needs(name)
    ensures other in Ranks(system) && Ranks(system)[other] < Ranks(system)[name]
  {
    hide Stable, Local, Level, FirstLevel;
    var n := |system.names|;
    FirstLevelIsFirst(system, name, n, n);
    var first := FirstLevel(system, name, n);
    LevelReads(system, name, first);
    LevelsGrow(system, first - 1);
    NeedsAreKnown(system, name, Level(system, first - 1));
    LevelsExtend(system, first - 1, n);
    FirstLevelIsFirst(system, other, first - 1, n);
  }

  lemma NeedsAreKnown(system: System, name: string, known: Terms)
    requires Local(system) && name in system.names && known.Keys <= system.names
    requires system.read(name, known).Defined?
    ensures system.needs(name) <= known.Keys
  {
  }

  /** Ranking every name by its first level solves a well-defined system. */
  lemma MeaningIsSolution(system: System)
    requires Stable(system) && Local(system) && WellDefined(system)
    ensures Solution(system, Meaning(system), Ranks(system))
  {
    hide Stable, Local, Level;
    LevelsGrow(system, |system.names|);
    forall name <- system.names
      ensures if name in Meaning(system) then system.read(name, Meaning(system)) == Defined(Meaning(system)[name])
              else system.read(name, Meaning(system)).Skipped?
    {
      MeaningIsFixpoint(system, name);
    }
    forall name, other | name in Meaning(system) && other in system.needs(name)
      ensures other in Meaning(system) && Ranks(system)[other] < Ranks(system)[name]
    {
      ReferencesComeFirst(system, name, other);
    }
  }

  lemma ReadingNeedsReferences(system: System, name: string, some: Terms, all: Terms)
    requires Local(system) && name in system.names && all.Keys <= system.names && Extends(some, all)
    requires system.needs(name) <= some.Keys
    ensures system.read(name, some) == system.read(name, all)
  {
  }

  lemma {:induction false} SolutionIsReached(
      system: System, solution: Terms, rank: map<string, nat>, depth: nat)
    requires Stable(system) && Local(system) && Solution(system, solution, rank)
    ensures Extends(Level(system, depth), solution)
    ensures forall name <- solution | rank[name] < depth :: name in Level(system, depth)
  {
    hide Stable, Local, Level;
    MeaningIsLeast(system, solution, depth);

    if depth > 0 {
      SolutionIsReached(system, solution, rank, depth - 1);
      forall name <- solution | rank[name] < depth
        ensures name in Level(system, depth)
      {
        ReadingNeedsReferences(system, name, Level(system, depth - 1), solution);
        LevelReads(system, name, depth);
      }
    }
  }

  lemma SolutionIsMeaning(system: System, solution: Terms, rank: map<string, nat>)
    requires Stable(system) && Local(system) && Solution(system, solution, rank)
    ensures solution == Meaning(system) && WellDefined(system)
  {
    hide Stable, Local, Level;
    var n := |system.names|;
    MeaningIsLeast(system, solution, n);
    forall name <- solution ensures name in Meaning(system) {
      SolutionIsReached(system, solution, rank, rank[name] + 1);
      var k := if rank[name] + 1 > n then rank[name] + 1 else n;
      LevelsExtend(system, rank[name] + 1, k);
      LevelsStop(system, k);
    }
    assert solution == Meaning(system);
  }

  /**
   * A system is well defined exactly when its names have meanings that agree with the definitions
   * and the references among them are acyclic; those meanings are then unique.
   */
  lemma WellDefinedExactlyWhenAcyclic(system: System)
    requires Stable(system) && Local(system)
    ensures WellDefined(system) <==> exists solution, rank :: Solution(system, solution, rank)
    ensures forall solution, rank | Solution(system, solution, rank) :: solution == Meaning(system)
  {
    hide Stable, Local, Level;
    if WellDefined(system) { MeaningIsSolution(system); }
    forall solution, rank | Solution(system, solution, rank)
      ensures solution == Meaning(system) && WellDefined(system)
    {
      SolutionIsMeaning(system, solution, rank);
    }
  }

  // ------------------------------------------------------------ reaching the meaning step by step

  /** A refused name has no meaning, however much is learnt. */
  lemma RefusalIsFinal(system: System, name: string, known: Terms)
    requires Stable(system) && name in system.names
    requires Extends(known, Meaning(system)) && system.read(name, known).Refused?
    ensures !WellDefined(system)
  {
    MeaningIsFixpoint(system, name);
  }

  /** One more decided name keeps what is known within the meaning. */
  lemma LearningStaysWithin(system: System, name: string, known: Terms)
    requires Stable(system) && name in system.names
    requires Extends(known, Meaning(system)) && system.read(name, known).Defined?
    ensures Extends(known[name := system.read(name, known).meaning], Meaning(system))
  {
    MeaningIsFixpoint(system, name);
  }

  /** When nothing more can be learnt, the whole meaning is known. */
  lemma StuckIsMeaning(system: System, known: Terms)
    requires Stable(system) && Extends(known, Meaning(system))
    requires forall name <- system.names | name !in known :: !system.read(name, known).Defined?
    ensures known == Meaning(system)
  {
    LevelsGrow(system, |system.names|);
    forall name <- system.names | system.read(name, known).Defined?
      ensures name in known && known[name] == system.read(name, known).meaning
    {
      LearningStaysWithin(system, name, known);
    }
    MeaningIsLeast(system, known, |system.names|);
    assert known.Keys == Meaning(system).Keys;
  }
}
