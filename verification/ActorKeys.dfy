/** Signing keys, generated at most once per actor and algorithm, by any number of processes at once. */
module ActorKeys {

  type ActorId = int
  type Pair = int

  datatype Algorithm = Rsa | Ed25519

  /** A local actor as stored: its deletion mark, its key rows, and whether the local account still exists. */
  datatype Stored = Stored(registered: bool, deleted: bool, keys: map<Algorithm, Pair>)

  datatype Outcome = Pairs(keys: map<Algorithm, Pair>) | Empty | Failed

  /** How far an operation has come; `seen` are the key rows it read. */
  datatype Stage =
    | Loading
    | Reading(deleted: bool)
    | Generating(seen: map<Algorithm, Pair>)
    | Saving(candidates: map<Algorithm, Pair>)
    | Settled(outcome: Outcome)

  datatype Operation = Operation(process: int, actor: ActorId, stage: Stage)

  /**
   * `pending` holds the operations in flight by process and actor; `calls` which operation each caller
   * received; `first` the pair first stored for each actor and algorithm.
   */
  datatype World = World(
    actors: map<ActorId, Stored>, operations: map<nat, Operation>, pending: map<(int, ActorId), nat>,
    calls: map<nat, nat>, first: map<(ActorId, Algorithm), Pair>)

  function Both(): set<Algorithm> { {Rsa, Ed25519} }

  /** The rows after inserting what is missing; a row that is there stays. */
  function Inserted(keys: map<Algorithm, Pair>, candidates: map<Algorithm, Pair>): map<Algorithm, Pair> {
    candidates + keys
  }

  function FirstStored(first: map<(ActorId, Algorithm), Pair>, actor: ActorId,
                       keys: map<Algorithm, Pair>): map<(ActorId, Algorithm), Pair>
  {
    (map algorithm | algorithm in keys :: (actor, algorithm) := keys[algorithm]) + first
  }

  datatype Step =
    | Call(caller: nat, process: int, actor: ActorId, id: nat)
    | Advance(operation: nat, generated: map<Algorithm, Pair>)
    | Fail(operation: nat)
    | SaveThenFail(operation: nat)
    | Forget(operation: nat)
    | Delete(actor: ActorId)
    | Purge(actor: ActorId)

  /** What the rows read say, once both are there. */
  function Result(keys: map<Algorithm, Pair>): Outcome {
    if keys.Keys == Both() then Pairs(keys) else Empty
  }

  /** The transaction of an operation: it locks the actor's row, so nothing comes between its statements. */
  function SavedActor(stored: Stored, candidates: map<Algorithm, Pair>): Stored {
    if !stored.registered || stored.deleted then stored else stored.(keys := Inserted(stored.keys, candidates))
  }

  function SavedOutcome(stored: Stored, candidates: map<Algorithm, Pair>): Outcome {
    if !stored.registered then Empty else Result(SavedActor(stored, candidates).keys)
  }

  function StoredOf(w: World, actor: ActorId): Stored {
    if actor in w.actors then w.actors[actor] else Stored(false, false, map[])
  }

  /** What an operation goes on to after a query or a generation. */
  function NextStage(stage: Stage, stored: Stored, generated: map<Algorithm, Pair>): Stage {
    match stage
    case Loading => if stored.registered then Reading(stored.deleted) else Settled(Empty)
    case Reading(deleted) =>
      if stored.keys.Keys == Both() then Settled(Pairs(stored.keys))
      else if deleted then Settled(Empty)
      else Generating(stored.keys)
    case Generating(_) => Saving(generated)
    case Saving(_) => stage
    case Settled(_) => stage
  }

  /** The transaction of an operation commits, and the operation settles. */
  ghost predicate Saves(w: World, id: nat, outcome: Outcome, w': World) {
    && id in w.operations && w.operations[id].stage.Saving?
    && var op := w.operations[id];
       var saved := SavedActor(StoredOf(w, op.actor), op.stage.candidates);
       w' == World(if op.actor in w.actors then w.actors[op.actor := saved] else w.actors,
                   w.operations[id := op.(stage := Settled(outcome))],
                   w.pending, w.calls, FirstStored(w.first, op.actor, saved.keys))
  }

  /** One await of an operation; the last one stores the generated pairs. */
  ghost predicate Advances(w: World, id: nat, generated: map<Algorithm, Pair>, w': World) {
    && id in w.operations && !w.operations[id].stage.Settled?
    && var op := w.operations[id];
       var stored := StoredOf(w, op.actor);
       && (op.stage.Generating? ==> generated.Keys == Both() - op.stage.seen.Keys)
       && if op.stage.Saving? then Saves(w, id, SavedOutcome(stored, op.stage.candidates), w')
          else w' == w.(operations := w.operations[id := op.(stage := NextStage(op.stage, stored, generated))])
  }

  ghost predicate Next(w: World, step: Step, w': World) {
    match step
    case Call(caller, process, actor, id) =>
      && caller !in w.calls
      && if (process, actor) in w.pending
         then w' == w.(calls := w.calls[caller := w.pending[(process, actor)]])
         else
           && id !in w.operations
           && w' == w.(operations := w.operations[id := Operation(process, actor, Loading)],
                       pending := w.pending[(process, actor) := id], calls := w.calls[caller := id])
    case Advance(id, generated) => Advances(w, id, generated, w')
    case Fail(id) =>
      && id in w.operations && !w.operations[id].stage.Settled?
      && w' == w.(operations := w.operations[id := w.operations[id].(stage := Settled(Failed))])
    case SaveThenFail(id) => Saves(w, id, Failed, w')   // the pairs are stored, but cannot be read back
    case Forget(id) =>
      && id in w.operations && w.operations[id].stage.Settled?
      && var key := (w.operations[id].process, w.operations[id].actor);
         key in w.pending && w.pending[key] == id && w' == w.(pending := w.pending - {key})
    case Delete(actor) =>
      actor in w.actors && w' == w.(actors := w.actors[actor := w.actors[actor].(deleted := true)])
    case Purge(actor) =>
      actor in w.actors && w' == w.(actors := w.actors[actor := Stored(false, w.actors[actor].deleted, map[])])
  }

  // ------------------------------------------------------------ what every step keeps

  ghost predicate FromFirst(first: map<(ActorId, Algorithm), Pair>, actor: ActorId, keys: map<Algorithm, Pair>) {
    forall algorithm <- keys :: (actor, algorithm) in first && first[(actor, algorithm)] == keys[algorithm]
  }

  /** Every pair stored or returned is the first ever stored for its actor and algorithm. */
  ghost predicate Agreed(w: World, actor: ActorId, stored: Stored) {
    && FromFirst(w.first, actor, stored.keys)
    && (!stored.registered ==> stored.keys == map[])
    && (stored.registered ==> forall algorithm :: (actor, algorithm) in w.first ==> algorithm in stored.keys)
  }

  ghost predicate Honest(w: World, op: Operation) {
    op.stage.Settled? && op.stage.outcome.Pairs? ==>
      op.stage.outcome.keys.Keys == Both() && FromFirst(w.first, op.actor, op.stage.outcome.keys)
  }

  /** An operation in flight is the one its process has pending for its actor. */
  ghost predicate SingleFlight(w: World) {
    && (forall key <- w.pending ::
          w.pending[key] in w.operations
          && (w.operations[w.pending[key]].process, w.operations[w.pending[key]].actor) == key)
    && (forall id <- w.operations | !w.operations[id].stage.Settled? ::
          var key := (w.operations[id].process, w.operations[id].actor);
          key in w.pending && w.pending[key] == id)
  }

  ghost predicate Invariant(w: World) {
    && (forall actor <- w.actors :: Agreed(w, actor, w.actors[actor]))
    && (forall id <- w.operations :: Honest(w, w.operations[id]))
    && (forall key <- w.first :: key.0 in w.actors)
    && SingleFlight(w)
  }

  lemma FirstGrows(first: map<(ActorId, Algorithm), Pair>, actor: ActorId, keys: map<Algorithm, Pair>)
    requires forall algorithm <- keys :: (actor, algorithm) in first ==> first[(actor, algorithm)] == keys[algorithm]
    ensures var more := FirstStored(first, actor, keys);
            && FromFirst(more, actor, keys)
            && (forall key <- first :: key in more && more[key] == first[key])
            && (forall key <- more :: key in first || (key.0 == actor && key.1 in keys))
  {
  }

  lemma StaysFromFirst(first: map<(ActorId, Algorithm), Pair>, more: map<(ActorId, Algorithm), Pair>, actor: ActorId,
                       keys: map<Algorithm, Pair>)
    requires FromFirst(first, actor, keys) && forall key <- first :: key in more && more[key] == first[key]
    ensures FromFirst(more, actor, keys)
  {
  }

  /** What a transaction stores and returns agrees with what was stored first. */
  lemma SavingAgrees(w: World, actor: ActorId, stored: Stored, candidates: map<Algorithm, Pair>)
    requires Agreed(w, actor, stored)
    ensures var saved := SavedActor(stored, candidates);
            var first := FirstStored(w.first, actor, saved.keys);
            && FromFirst(first, actor, saved.keys)
            && (!saved.registered ==> saved.keys == map[])
            && (saved.registered ==> forall algorithm :: (actor, algorithm) in first ==> algorithm in saved.keys)
            && (SavedOutcome(stored, candidates).Pairs? ==> SavedOutcome(stored, candidates).keys == saved.keys)
            && (forall key <- w.first :: key in first && first[key] == w.first[key])
            && (forall key <- first :: key in w.first || (key.0 == actor && saved.keys != map[]))
  {
    var saved := SavedActor(stored, candidates);
    FirstGrows(w.first, actor, saved.keys);
  }

  /** One operation goes on; nothing about which operations are in flight is mixed up. */
  lemma FlightGoesOn(w: World, id: nat, stage: Stage, w': World)
    requires SingleFlight(w) && id in w.operations && !w.operations[id].stage.Settled?
    requires w'.operations == w.operations[id := w.operations[id].(stage := stage)] && w'.pending == w.pending
    ensures SingleFlight(w')
  {
  }

  lemma StageChanges(w: World, id: nat, stage: Stage, w': World)
    requires Invariant(w) && id in w.operations && !w.operations[id].stage.Settled?
    requires w' == w.(operations := w.operations[id := w.operations[id].(stage := stage)])
    requires Honest(w, w.operations[id].(stage := stage))
    ensures Invariant(w')
  {
    FlightGoesOn(w, id, stage, w');
    hide SingleFlight, FromFirst;
    forall other <- w'.operations ensures Honest(w', w'.operations[other]) {
      assert other != id ==> Honest(w, w.operations[other]);
    }
    forall actor <- w'.actors ensures Agreed(w', actor, w'.actors[actor]) { assert Agreed(w, actor, w.actors[actor]); }
  }

  lemma ReadingIsHonest(w: World, id: nat, generated: map<Algorithm, Pair>)
    requires Invariant(w) && id in w.operations && !w.operations[id].stage.Saving?
    ensures var op := w.operations[id];
            Honest(w, op.(stage := NextStage(op.stage, StoredOf(w, op.actor), generated)))
  {
    hide SingleFlight, FromFirst;
    var op := w.operations[id];
    assert Honest(w, op);
    if op.actor in w.actors { assert Agreed(w, op.actor, w.actors[op.actor]); }
    NoKeys(w.first, op.actor);
  }

  lemma AgreedStays(w: World, w': World, actor: ActorId, stored: Stored)
    requires Agreed(w, actor, stored)
    requires forall key <- w.first :: key in w'.first && w'.first[key] == w.first[key]
    requires forall algorithm :: (actor, algorithm) in w'.first ==> (actor, algorithm) in w.first
    ensures Agreed(w', actor, stored)
  {
    StaysFromFirst(w.first, w'.first, actor, stored.keys);
  }

  lemma HonestStays(w: World, w': World, op: Operation)
    requires Honest(w, op) && forall key <- w.first :: key in w'.first && w'.first[key] == w.first[key]
    ensures Honest(w', op)
  {
    if op.stage.Settled? && op.stage.outcome.Pairs? {
      StaysFromFirst(w.first, w'.first, op.actor, op.stage.outcome.keys);
    }
  }

  lemma NothingStored(w: World, actor: ActorId)
    requires Invariant(w)
    ensures Agreed(w, actor, StoredOf(w, actor))
  {
    hide SingleFlight, Honest;
    NoKeys(w.first, actor);
  }

  lemma SavingKeepsInvariant(w: World, id: nat, outcome: Outcome, w': World)
    requires Invariant(w) && Saves(w, id, outcome, w')
    requires outcome == Failed
             || outcome == SavedOutcome(StoredOf(w, w.operations[id].actor), w.operations[id].stage.candidates)
    ensures Invariant(w')
  {
    var op := w.operations[id];
    NothingStored(w, op.actor);
    SavingAgrees(w, op.actor, StoredOf(w, op.actor), op.stage.candidates);
    hide FromFirst, FirstStored, SavedOutcome, NextStage, Inserted;
    assert SingleFlight(w') by { FlightGoesOn(w, id, Settled(outcome), w'); }
    assert op.actor in w.actors || SavedActor(StoredOf(w, op.actor), op.stage.candidates).keys == map[];
    hide SingleFlight, SavedActor;
    forall actor <- w'.actors ensures Agreed(w', actor, w'.actors[actor]) {
      if actor != op.actor { AgreedStays(w, w', actor, w.actors[actor]); }
    }
    forall other <- w'.operations ensures Honest(w', w'.operations[other]) {
      if other != id {
        HonestStays(w, w', w.operations[other]);
      } else {
        ReturnedBoth(StoredOf(w, op.actor), op.stage.candidates);
      }
    }
  }

  lemma ReturnedBoth(stored: Stored, candidates: map<Algorithm, Pair>)
    ensures SavedOutcome(stored, candidates).Pairs? ==> SavedOutcome(stored, candidates).keys.Keys == Both()
  {
  }

  lemma CallKeepsFlight(w: World, step: Step, w': World)
    requires SingleFlight(w) && step.Call? && Next(w, step, w')
    ensures SingleFlight(w')
  {
  }

  lemma CallKeepsInvariant(w: World, step: Step, w': World)
    requires Invariant(w) && step.Call? && Next(w, step, w')
    ensures Invariant(w')
  {
    hide FromFirst, Agreed;
    CallKeepsFlight(w, step, w');
    hide SingleFlight;
    forall other <- w'.operations ensures Honest(w', w'.operations[other]) {
      if other in w.operations { HonestStays(w, w', w.operations[other]); }
    }
    forall actor <- w'.actors ensures Agreed(w', actor, w'.actors[actor]) {
      AgreedStays(w, w', actor, w.actors[actor]);
    }
  }

  lemma ForgetKeepsInvariant(w: World, step: Step, w': World)
    requires Invariant(w) && step.Forget? && Next(w, step, w')
    ensures Invariant(w')
  {
    hide FromFirst, Agreed, Honest;
    assert SingleFlight(w');
    hide SingleFlight;
    forall other <- w'.operations ensures Honest(w', w'.operations[other]) { HonestStays(w, w', w.operations[other]); }
    forall actor <- w'.actors ensures Agreed(w', actor, w'.actors[actor]) {
      AgreedStays(w, w', actor, w.actors[actor]);
    }
  }

  lemma ActorKeepsInvariant(w: World, actor: ActorId, stored: Stored, w': World)
    requires Invariant(w) && actor in w.actors && w' == w.(actors := w.actors[actor := stored])
             && Agreed(w, actor, stored)
    ensures Invariant(w')
  {
    assert SingleFlight(w');
    hide FromFirst, Agreed, Honest, SingleFlight;
    forall other <- w'.operations ensures Honest(w', w'.operations[other]) { HonestStays(w, w', w.operations[other]); }
    forall other <- w'.actors ensures Agreed(w', other, w'.actors[other]) {
      AgreedStays(w, w', other, w'.actors[other]);
    }
  }

  lemma NextKeepsInvariant(w: World, step: Step, w': World)
    requires Invariant(w) && Next(w, step, w')
    ensures Invariant(w')
  {
    match step
    case Call(_, _, _, _) => CallKeepsInvariant(w, step, w');
    case Forget(_) => ForgetKeepsInvariant(w, step, w');
    case Advance(id, generated) =>
      hide Invariant;
      if w.operations[id].stage.Saving? {
        SavingKeepsInvariant(w, id,
                             SavedOutcome(StoredOf(w, w.operations[id].actor), w.operations[id].stage.candidates), w');
      } else {
        ReadingIsHonest(w, id, generated);
        StageChanges(w, id, NextStage(w.operations[id].stage, StoredOf(w, w.operations[id].actor), generated), w');
      }
    case Fail(id) =>
      hide Invariant;
      StageChanges(w, id, Settled(Failed), w');
    case SaveThenFail(id) =>
      hide Invariant;
      SavingKeepsInvariant(w, id, Failed, w');
    case Delete(actor) =>
      assert Agreed(w, actor, w.actors[actor]);
      hide Invariant;
      ActorKeepsInvariant(w, actor, w.actors[actor].(deleted := true), w');
    case Purge(actor) =>
      NoKeys(w.first, actor);
      assert Agreed(w, actor, Stored(false, w.actors[actor].deleted, map[]));
      hide Invariant;
      ActorKeepsInvariant(w, actor, Stored(false, w.actors[actor].deleted, map[]), w');
  }

  lemma NoKeys(first: map<(ActorId, Algorithm), Pair>, actor: ActorId)
    ensures FromFirst(first, actor, map[])
  {
  }

  // ------------------------------------------------------------ whole runs

  ghost predicate IsRun(worlds: seq<World>, steps: seq<Step>) {
    |worlds| == |steps| + 1 && forall i | 0 <= i < |steps| :: Next(worlds[i], steps[i], worlds[i + 1])
  }

  lemma {:induction false} RunKeepsInvariant(worlds: seq<World>, steps: seq<Step>, i: nat)
    requires IsRun(worlds, steps) && Invariant(worlds[0]) && i < |worlds|
    ensures Invariant(worlds[i])
  {
    hide Invariant, Next;
    if i > 0 {
      RunKeepsInvariant(worlds, steps, i - 1);
      NextKeepsInvariant(worlds[i - 1], steps[i - 1], worlds[i]);
    }
  }

  lemma NextKeepsFirst(w: World, step: Step, w': World)
    requires Invariant(w) && Next(w, step, w')
    ensures forall key <- w.first :: key in w'.first && w'.first[key] == w.first[key]
  {
    hide SingleFlight, Honest, Agreed;
  }

  lemma {:induction false} FirstStays(worlds: seq<World>, steps: seq<Step>, i: nat, j: nat)
    requires IsRun(worlds, steps) && Invariant(worlds[0]) && i <= j < |worlds|
    ensures forall key <- worlds[i].first :: key in worlds[j].first && worlds[j].first[key] == worlds[i].first[key]
  {
    hide Invariant, Next;
    if i < j {
      FirstStays(worlds, steps, i, j - 1);
      RunKeepsInvariant(worlds, steps, j - 1);
      NextKeepsFirst(worlds[j - 1], steps[j - 1], worlds[j]);
    }
  }

  ghost predicate Returned(w: World, actor: ActorId, keys: map<Algorithm, Pair>) {
    exists id <- w.operations :: w.operations[id].actor == actor && w.operations[id].stage == Settled(Pairs(keys))
  }

  lemma ReturnedIsFirst(w: World, actor: ActorId, keys: map<Algorithm, Pair>)
    requires Invariant(w) && Returned(w, actor, keys)
    ensures keys.Keys == Both() && FromFirst(w.first, actor, keys)
  {
    hide FromFirst, SingleFlight, Agreed;
    var id :| id in w.operations && w.operations[id].actor == actor && w.operations[id].stage == Settled(Pairs(keys));
    assert Honest(w, w.operations[id]);
  }

  /** All non-empty results for one actor, in any process and at any time of a run, are the same pairs. */
  lemma KeysAgree(worlds: seq<World>, steps: seq<Step>, i: nat, j: nat, actor: ActorId, some: map<Algorithm, Pair>,
                  others: map<Algorithm, Pair>)
    requires IsRun(worlds, steps) && Invariant(worlds[0]) && i <= j < |worlds|
    requires Returned(worlds[i], actor, some) && Returned(worlds[j], actor, others)
    ensures some == others
  {
    hide Invariant, Next, Returned;
    RunKeepsInvariant(worlds, steps, i);
    RunKeepsInvariant(worlds, steps, j);
    ReturnedIsFirst(worlds[i], actor, some);
    ReturnedIsFirst(worlds[j], actor, others);
    FirstStays(worlds, steps, i, j);
    assert forall algorithm <- Both() :: some[algorithm] == worlds[j].first[(actor, algorithm)] == others[algorithm];
  }

  /** Once an actor is deleted, it stays deleted and gets no new key row. */
  lemma NoKeyAfterDeletion(w: World, step: Step, w': World, actor: ActorId)
    requires Next(w, step, w') && actor in w.actors && (w.actors[actor].deleted || !w.actors[actor].registered)
    ensures actor in w'.actors && (w.actors[actor].deleted ==> w'.actors[actor].deleted)
    ensures w'.actors[actor].registered ==> w.actors[actor].registered
    ensures w'.actors[actor].keys == w.actors[actor].keys || w'.actors[actor].keys == map[]
  {
    hide NextStage, FirstStored, SavedOutcome;
  }

  /** Within a process at most one operation per actor is in flight. */
  lemma OneOperationAtATime(w: World, a: nat, b: nat)
    requires Invariant(w) && a in w.operations && b in w.operations
    requires w.operations[a].process == w.operations[b].process && w.operations[a].actor == w.operations[b].actor
    requires !w.operations[a].stage.Settled? && !w.operations[b].stage.Settled?
    ensures a == b
  {
    hide Agreed, Honest;
  }

  /**
   * A caller that joins gets the operation in flight, and every operation keeps its outcome: all
   * its callers receive it.
   */
  lemma JoinersShareTheOutcome(w: World, step: Step, w': World)
    requires Invariant(w) && Next(w, step, w')
    ensures forall caller <- w.calls :: caller in w'.calls && w'.calls[caller] == w.calls[caller]
    ensures forall id <- w.operations ::
      && id in w'.operations && w'.operations[id].process == w.operations[id].process
         && w'.operations[id].actor == w.operations[id].actor
      && (w.operations[id].stage.Settled? ==> w'.operations[id] == w.operations[id])
    ensures step.Call? && (step.process, step.actor) in w.pending ==>
              w'.calls[step.caller] == w.pending[(step.process, step.actor)] && w'.operations == w.operations
  {
    hide Agreed, Honest;
  }

  // ------------------------------------------------------------ what one operation reads, stores and returns

  ghost predicate KeysAt(w: World, actor: ActorId, algorithm: Algorithm, pair: Pair) {
    actor in w.actors && algorithm in w.actors[actor].keys && w.actors[actor].keys[algorithm] == pair
  }

  /**
   * The last await of an operation on an actor that still has its account.  A row that is there stays; a
   * missing one is filled in, unless the actor is deleted.  If both rows are there then, exactly these are
   * returned, and otherwise nothing is.
   */
  lemma SavesInWords(w: World, id: nat, generated: map<Algorithm, Pair>, w': World)
    requires Advances(w, id, generated, w') && w.operations[id].stage.Saving?
    requires w.operations[id].actor in w.actors && w.actors[w.operations[id].actor].registered
    ensures var actor, candidates := w.operations[id].actor, w.operations[id].stage.candidates;
            && actor in w'.actors
            && (forall algorithm, pair :: KeysAt(w', actor, algorithm, pair) <==>
                  || KeysAt(w, actor, algorithm, pair)
                  || (algorithm !in w.actors[actor].keys && !w.actors[actor].deleted
                      && algorithm in candidates && candidates[algorithm] == pair))
            && var rows := w'.actors[actor].keys;
               w'.operations[id].stage ==
                 if Rsa in rows && Ed25519 in rows then Settled(Pairs(rows)) else Settled(Empty)
  {
    var actor := w.operations[id].actor;
    var rows := w'.actors[actor].keys;
    if Rsa in rows && Ed25519 in rows { BothInWords(rows); }
  }

  lemma BothInWords(keys: map<Algorithm, Pair>)
    ensures keys.Keys == Both() <==> Rsa in keys && Ed25519 in keys
  {
    if Rsa in keys && Ed25519 in keys {
      forall algorithm: Algorithm ensures algorithm in keys <==> algorithm in Both() {
        assert algorithm.Rsa? || algorithm.Ed25519?;
      }
    }
  }

  lemma SameMap(actors: map<ActorId, Stored>, actor: ActorId)
    requires actor in actors
    ensures actors[actor := actors[actor]] == actors
  {
  }

  /** An account that is gone gets no row and returns nothing, however far the operation had come. */
  lemma GoneInWords(w: World, id: nat, generated: map<Algorithm, Pair>, w': World)
    requires Advances(w, id, generated, w')
    requires w.operations[id].stage.Loading? || w.operations[id].stage.Saving?
    requires w.operations[id].actor in w.actors ==> !w.actors[w.operations[id].actor].registered
    ensures w'.operations[id].stage == Settled(Empty) && w'.actors == w.actors
  {
    hide FirstStored, Result, Inserted;
    var op := w.operations[id];
    if op.actor in w.actors { SameMap(w.actors, op.actor); }
  }

  /** The awaits before: complete rows are returned as they are, and only missing pairs are generated. */
  lemma ReadsInWords(w: World, id: nat, generated: map<Algorithm, Pair>, w': World)
    requires Advances(w, id, generated, w') && !w.operations[id].stage.Saving?
    ensures w'.actors == w.actors
    ensures var op, after := w.operations[id], w'.operations[id].stage;
            var rows := if op.actor in w.actors then w.actors[op.actor].keys else map[];
            && (op.stage.Loading? && op.actor in w.actors && w.actors[op.actor].registered ==>
                  after == Reading(w.actors[op.actor].deleted))
            && (op.stage.Reading? ==>
                  if Rsa in rows && Ed25519 in rows then after == Settled(Pairs(rows))
                  else if op.stage.deleted then after == Settled(Empty)
                  else after == Generating(rows))
            && (op.stage.Generating? ==>
                  && after.Saving?
                  && forall algorithm :: algorithm in after.candidates <==> algorithm !in op.stage.seen)
  {
    var op := w.operations[id];
    BothInWords(StoredOf(w, op.actor).keys);
    forall algorithm: Algorithm ensures algorithm in Both() { assert algorithm.Rsa? || algorithm.Ed25519?; }
  }

  /** One await of an operation, whatever pairs are generated in it. */
  ghost predicate GoesOn(w: World, id: nat, w': World) {
    exists generated :: Next(w, Advance(id, generated), w')
  }

  /**
   * Two awaits of an operation, and nothing in between, find the rows of an actor with an account
   * that is not deleted.
   */
  lemma RowsAreRead(w: World, id: nat) returns (reading: World, read: World)
    requires id in w.operations && w.operations[id].stage == Loading && w.operations[id].actor in w.actors
    requires var stored := w.actors[w.operations[id].actor]; stored.registered && !stored.deleted
    ensures GoesOn(w, id, reading) && GoesOn(reading, id, read)
    ensures read.actors == w.actors && id in read.operations && read.operations[id].actor == w.operations[id].actor
    ensures var rows := w.actors[w.operations[id].actor].keys;
            read.operations[id].stage == if Rsa in rows && Ed25519 in rows then Settled(Pairs(rows))
              else Generating(rows)
  {
    var op := w.operations[id];
    var stored := w.actors[op.actor];
    BothInWords(stored.keys);
    reading := w.(operations := w.operations[id := op.(stage := Reading(false))]);
    read := reading.(operations := reading.operations[id := op.(stage := NextStage(Reading(false), stored, map[]))]);
    assert Next(w, Advance(id, map[]), reading) && Next(reading, Advance(id, map[]), read);
  }

  /** Two more awaits generate what is missing and store it. */
  lemma MissingAreStored(w: World, id: nat, pairs: map<Algorithm, Pair>) returns (saving: World, settled: World)
    requires id in w.operations && w.operations[id].actor in w.actors && pairs.Keys == Both()
    requires var stored := w.actors[w.operations[id].actor];
             stored.registered && !stored.deleted && w.operations[id].stage == Generating(stored.keys)
    ensures GoesOn(w, id, saving) && GoesOn(saving, id, settled)
    ensures var actor := w.operations[id].actor;
            && id in settled.operations && settled.operations[id].stage.Settled? && actor in settled.actors
            && Complete(w.actors[actor].keys, pairs, settled.actors[actor].keys)
            && settled.operations[id].stage.outcome == Pairs(settled.actors[actor].keys)
  {
    hide FirstStored;
    var op := w.operations[id];
    var stored := w.actors[op.actor];
    var missing := map algorithm | algorithm in pairs && algorithm !in stored.keys :: pairs[algorithm];
    assert missing.Keys == Both() - stored.keys.Keys;
    saving := w.(operations := w.operations[id := op.(stage := Saving(missing))]);
    assert Next(w, Advance(id, missing), saving);
    var keys := missing + stored.keys;
    forall algorithm: Algorithm ensures algorithm in keys && algorithm in Both() {
      assert algorithm.Rsa? || algorithm.Ed25519?;
    }
    BothInWords(keys);
    settled := World(w.actors[op.actor := stored.(keys := keys)],
                     saving.operations[id := op.(stage := Settled(Pairs(keys)))], w.pending, w.calls,
                     FirstStored(w.first, op.actor, keys));
    assert Saves(saving, id, Pairs(keys), settled);
    assert Next(saving, Advance(id, map[]), settled);
  }

  /** Both pairs: those that were there, and the generated ones for the rest. */
  ghost predicate Complete(before: map<Algorithm, Pair>, generated: map<Algorithm, Pair>, keys: map<Algorithm, Pair>) {
    forall algorithm ::
      && algorithm in keys && (algorithm in before || algorithm in generated)
      && keys[algorithm] == if algorithm in before then before[algorithm] else generated[algorithm]
  }

  /** An operation that nothing comes between returns both pairs, stored by then. */
  lemma AloneReturnsPairs(w: World, id: nat, pairs: map<Algorithm, Pair>) returns (worlds: seq<World>)
    requires id in w.operations && w.operations[id].stage == Loading && w.operations[id].actor in w.actors
    requires pairs.Keys == Both()
    requires var stored := w.actors[w.operations[id].actor]; stored.registered && !stored.deleted
    ensures worlds != [] && worlds[0] == w
    ensures forall i | 0 <= i < |worlds| - 1 :: GoesOn(worlds[i], id, worlds[i + 1])
    ensures var actor, last := w.operations[id].actor, worlds[|worlds| - 1];
            && id in last.operations && actor in last.actors
            && Complete(w.actors[actor].keys, pairs, last.actors[actor].keys)
            && last.operations[id].stage == Settled(Pairs(last.actors[actor].keys))
  {
    hide GoesOn;
    var rows := w.actors[w.operations[id].actor].keys;
    forall algorithm: Algorithm ensures algorithm in pairs { assert algorithm.Rsa? || algorithm.Ed25519?; }
    var reading, read := RowsAreRead(w, id);
    if Rsa in rows && Ed25519 in rows {
      worlds := [w, reading, read];
      forall algorithm: Algorithm ensures algorithm in rows { assert algorithm.Rsa? || algorithm.Ed25519?; }
    } else {
      var saving, settled := MissingAreStored(read, id, pairs);
      worlds := [w, reading, read, saving, settled];
    }
  }
}
