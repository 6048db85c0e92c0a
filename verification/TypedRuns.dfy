/**
 * Concurrent transactions on resources with typed rows, statement by statement.  A coordinated write
 * updates the typed row, then its addressing, then appends the revision, all under the row lock; in
 * between the resource is out of step, but only in the eyes of the transaction that writes it.
 */
module TypedRuns {
  import opened Wrappers
  import opened RevisionHistory
  import opened RevisionTables
  import opened TypedRevisions
  import Runs = RevisionRuns

  /** A resource: its history, its typed row, and its current addressing. */
  datatype Resource = Resource(state: State, row: Option<TypedObject>, addressing: multiset<Occurrence>)

  /** How far a coordinated write of a resource has come, and what a savepoint would bring back. */
  datatype Stage =
    | Settled
    | Updated(before: Resource, expected: Option<Uuid>, draft: TypedDraft)
    | Readdressed(before: Resource, expected: Option<Uuid>, draft: TypedDraft)

  datatype Held = Held(now: Resource, stage: Stage)

  datatype World = World(
    committed: map<Uuid, Resource>, running: map<nat, map<Uuid, Held>>, used: set<Uuid>, issued: map<Uuid, Runs.Append>)

  const NEW_RESOURCE := Resource(State(Unknown, [], false), None, multiset{})

  datatype Step =
    | Begin(t: nat)
    | Register(r: Uuid)
    | Lock(t: nat, r: Uuid)
    | AppendPlain(t: nat, r: Uuid, request: Request, id: Uuid)
    | Update(t: nat, r: Uuid, expected: Option<Uuid>, draft: TypedDraft)
    | Readdress(t: nat, r: Uuid)
    | Finish(t: nat, r: Uuid, id: Uuid)
    | Undo(t: nat, r: Uuid)
    | Insert(t: nat, r: Uuid, row: TypedObject, addressing: multiset<Occurrence>)
    | PromoteOther(t: nat, r: Uuid, kind: ResourceKind)
    | CaptureFirst(t: nat, r: Uuid, id: Uuid, capture: Capture, projection: Projection, occurrences: seq<Occurrence>,
                   relations: seq<Relation>)
    | Commit(t: nat)
    | Rollback(t: nat)

  // ------------------------------------------------------------ one statement

  /** The checks of a coordinated write. */
  ghost predicate Writable(x: Resource, expected: Option<Uuid>, draft: TypedDraft) {
    && (draft.TypedSnapshot? ==> WellFormed(draft.occurrences))
    && expected.Some? && x.state.kind == Object && x.row.Some? && HeadId(x.state.history) == expected
    && var head := Head(x.state.history).value;
       x.row.value.deleted.None? && head.content == Snapshot(x.row.value.document)
         && x.addressing == multiset(head.addressing)
  }

  ghost predicate Holds(w: World, t: nat, r: Uuid) {
    t in w.running && r in w.running[t]
  }

  function Put(w: World, t: nat, r: Uuid, held: Held): World
    requires t in w.running
  {
    w.(running := w.running[t := w.running[t][r := held]])
  }

  function Inserted(w: World, r: Uuid, id: Uuid, expected: Option<Uuid>): World {
    w.(used := w.used + {id}, issued := w.issued[id := Runs.Append(r, expected)])
  }

  function FinishRequest(stage: Stage): Request
    requires stage.Readdressed?
  {
    Request(Object, stage.expected, DraftOf(stage.draft))
  }

  ghost predicate Next(w: World, step: Step, w': World) {
    match step
    case Begin(t) => t !in w.running && w' == w.(running := w.running[t := map[]])
    case Register(r) => r !in w.committed && w' == w.(committed := w.committed[r := NEW_RESOURCE])
    case Lock(t, r) =>
      && t in w.running && r in w.committed && (forall u <- w.running :: r !in w.running[u])
      && w' == Put(w, t, r, Held(w.committed[r], Settled))
    case AppendPlain(t, r, request, id) =>
      && Holds(w, t, r) && w.running[t][r].stage.Settled? && request.Valid() && id !in w.used
      && (match Appended(w.running[t][r].now.state, request, false, id)
          case Err(_) => w' == w
          case Ok(after) =>
            w' == Inserted(Put(w, t, r, Held(w.running[t][r].now.(state := after), Settled)), r, id, request.expected))
    case Update(t, r, expected, draft) =>
      && Holds(w, t, r) && w.running[t][r].stage.Settled?
      && var now := w.running[t][r].now;
         && Writable(now, expected, draft)
         && w' == Put(w, t, r, Held(now.(row := Some(RowAfter(now.row.value, draft))),
                                    if draft.TypedSnapshot? then Updated(now, expected, draft)
                                      else Readdressed(now, expected, draft)))
    case Readdress(t, r) =>
      && Holds(w, t, r) && w.running[t][r].stage.Updated? && w.running[t][r].stage.draft.TypedSnapshot?
      && var held := w.running[t][r];
         w' == Put(w, t, r, Held(held.now.(addressing := multiset(held.stage.draft.occurrences)),
                                 Readdressed(held.stage.before, held.stage.expected, held.stage.draft)))
    case Finish(t, r, id) =>
      && Holds(w, t, r) && w.running[t][r].stage.Readdressed? && id !in w.used
      && var held := w.running[t][r];
         (match Appended(held.now.state, FinishRequest(held.stage), true, id)
          case Err(_) => w' == Put(w, t, r, Held(held.stage.before, Settled))
          case Ok(after) =>
              w' == Inserted(Put(w, t, r, Held(held.now.(state := after), Settled)), r, id, held.stage.expected))
    case Undo(t, r) =>
      && Holds(w, t, r) && !w.running[t][r].stage.Settled?
      && w' == Put(w, t, r, Held(w.running[t][r].stage.before, Settled))
    case Insert(t, r, row, addressing) =>
      && Holds(w, t, r) && w.running[t][r].stage.Settled? && w.running[t][r].now.state.kind == Unknown
         && row.deleted.None?
      && w' == Put(w, t, r,
                   Held(Resource(w.running[t][r].now.state.(kind := Object, typed := true), Some(row), addressing),
                        Settled))
    case PromoteOther(t, r, kind) =>
      && Holds(w, t, r) && w.running[t][r].stage.Settled? && w.running[t][r].now.state.kind == Unknown
      && kind != Unknown && kind != Object
      && w' == Put(w, t, r,
                   Held(w.running[t][r].now.(state := w.running[t][r].now.state.(kind := kind,
                       typed := kind == Activity)), Settled))
    case CaptureFirst(t, r, id, capture, projection, occurrences, relations) =>
      && Holds(w, t, r) && w.running[t][r].stage.Settled? && id !in w.used
      && var now := w.running[t][r].now;
         && now.state.kind == Object && now.state.history == [] && now.row.Some? && now.row.value.deleted.None?
         && multiset(occurrences) == now.addressing
         && var request :=
            Request(Object, None, NewSnapshot(now.row.value.document, capture, projection, occurrences, relations));
            && Appended(now.state, request, true, id).Ok?
            && w' == Inserted(Put(w, t, r, Held(now.(state := Appended(now.state, request, true, id).value), Settled)),
                              r, id, None)
    case Commit(t) =>
      && t in w.running && (forall r <- w.running[t] :: w.running[t][r].stage.Settled?)
      && w' == w.(committed := w.committed + (map r | r in w.running[t] :: w.running[t][r].now),
                  running := w.running - {t})
    case Rollback(t) => t in w.running && w' == w.(running := w.running - {t})
  }

  // ------------------------------------------------------------ the histories alone

  function StatesOf(held: map<Uuid, Held>): map<Uuid, State> {
    map r | r in held :: held[r].now.state
  }

  /** The same world as the model of revisions alone sees it. */
  function Shadow(w: World): Runs.World {
    Runs.World(map r | r in w.committed :: w.committed[r].state, map t | t in w.running :: StatesOf(w.running[t]),
               w.used, w.issued)
  }

  lemma PutShadow(w: World, t: nat, r: Uuid, held: Held)
    requires t in w.running
    ensures var s := Shadow(w);
            Shadow(Put(w, t, r, held)) == s.(running := s.running[t := s.running[t][r := held.now.state]])
  {
    var s, s' := Shadow(w), Shadow(Put(w, t, r, held));
    assert s'.running[t] == s.running[t][r := held.now.state];
    assert s'.running == s.running[t := s.running[t][r := held.now.state]];
  }

  /** Putting back the state a transaction already has changes nothing for the histories. */
  lemma PutSameShadow(w: World, t: nat, r: Uuid, held: Held)
    requires Holds(w, t, r) && held.now.state == w.running[t][r].now.state
    ensures Shadow(Put(w, t, r, held)) == Shadow(w)
  {
    PutShadow(w, t, r, held);
    var s := Shadow(w);
    assert s.running[t][r := held.now.state] == s.running[t];
    assert s.running[t := s.running[t]] == s.running;
  }

  ghost predicate HistoriesStep(w: World, w': World) {
    Shadow(w') == Shadow(w) || exists s :: Runs.Next(Shadow(w), s, Shadow(w'))
  }

  /** Beginning, registering and locking are steps of the histories alone. */
  lemma FrameStep(w: World, step: Step, w': World)
    requires Next(w, step, w') && (step.Begin? || step.Register? || step.Lock?)
    ensures HistoriesStep(w, w')
  {
    hide Writable, Appended, RowAfter;
    match step
    case Begin(t) =>
      assert Shadow(w').running == Shadow(w).running[t := map[]];
      assert Runs.Next(Shadow(w), Runs.Begin(t), Shadow(w'));
    case Register(r) =>
      assert Shadow(w').committed == Shadow(w).committed[r := State(Unknown, [], false)];
      assert Runs.Next(Shadow(w), Runs.Register(r), Shadow(w'));
    case Lock(t, r) =>
      PutShadow(w, t, r, Held(w.committed[r], Settled));
      assert Runs.Next(Shadow(w), Runs.Lock(t, r), Shadow(w'));
  }

  lemma ShadowWithout(w: World, t: nat)
    ensures Shadow(w.(running := w.running - {t})) == Shadow(w).(running := Shadow(w).running - {t})
  {
    assert Shadow(w.(running := w.running - {t})).running == Shadow(w).running - {t};
  }

  lemma ShadowPublished(w: World, t: nat)
    requires t in w.running
    ensures t in Shadow(w).running
    ensures Shadow(w.(committed := w.committed + (map r | r in w.running[t] :: w.running[t][r].now)))
         == Shadow(w).(committed := Shadow(w).committed + Shadow(w).running[t])
  {
    var published := w.(committed := w.committed + (map r | r in w.running[t] :: w.running[t][r].now));
    assert Shadow(published).committed == Shadow(w).committed + Shadow(w).running[t];
  }

  /** So are the ends. */
  lemma EndStep(w: World, step: Step, w': World)
    requires Next(w, step, w') && (step.Commit? || step.Rollback?)
    ensures HistoriesStep(w, w')
  {
    hide Writable, Appended, RowAfter, Shadow;
    var t := step.t;
    ShadowPublished(w, t);
    match step
    case Commit(_) =>
      ShadowWithout(w.(committed := w.committed + (map r | r in w.running[t] :: w.running[t][r].now)), t);
      assert Runs.Next(Shadow(w), Runs.Commit(t), Shadow(w'));
    case Rollback(_) =>
      ShadowWithout(w, t);
      assert Runs.Next(Shadow(w), Runs.Rollback(t), Shadow(w'));
  }

  /** So are the promotions; updates of the typed row and its addressing leave the histories as they are. */
  lemma RowStep(w: World, step: Step, w': World)
    requires Next(w, step, w') && (step.PromoteOther? || step.Insert? || step.Update? || step.Readdress? || step.Undo?)
    requires Holds(w, step.t, step.r) ==> Underway(w.running[step.t][step.r])
    ensures HistoriesStep(w, w')
  {
    hide Writable, RowAfter, Underway;
    match step
    case PromoteOther(t, r, kind) =>
      PutShadow(w, t, r, w'.running[t][r]);
      assert Runs.Next(Shadow(w), Runs.Promote(t, r, kind), Shadow(w'));
    case Insert(t, r, row, addressing) =>
      PutShadow(w, t, r, w'.running[t][r]);
      assert Runs.Next(Shadow(w), Runs.Promote(t, r, Object), Shadow(w'));
    case Update(t, r, _, _) => PutSameShadow(w, t, r, w'.running[t][r]);
    case Readdress(t, r) => PutSameShadow(w, t, r, w'.running[t][r]);
    case Undo(t, r) =>
      BeforeHasSameState(w.running[t][r]);
      PutSameShadow(w, t, r, w'.running[t][r]);
  }

  /** And so are the appends. */
  lemma AppendStep(w: World, step: Step, w': World)
    requires Next(w, step, w') && (step.AppendPlain? || step.Finish? || step.CaptureFirst?)
    requires Holds(w, step.t, step.r) ==> Underway(w.running[step.t][step.r])
    ensures HistoriesStep(w, w')
  {
    hide Appended, Underway, StatesOf;
    match step
    case AppendPlain(t, r, request, id) =>
      if w' != w { PutShadow(w, t, r, w'.running[t][r]); }
      assert Runs.Next(Shadow(w), Runs.AppendUnder(t, r, request, false, id), Shadow(w')) by { StateHeld(w, t, r); }
    case Finish(t, r, id) =>
      var held := w.running[t][r];
      BeforeHasSameState(held);
      StateHeld(w, t, r);
      if Appended(held.now.state, FinishRequest(held.stage), true, id).Err? {
        PutSameShadow(w, t, r, w'.running[t][r]);
      } else {
        PutShadow(w, t, r, w'.running[t][r]);
        assert Runs.Next(Shadow(w), Runs.AppendUnder(t, r, FinishRequest(held.stage), true, id), Shadow(w'));
      }
    case CaptureFirst(t, r, id, capture, projection, occurrences, relations) =>
      var request :=
        Request(Object, None,
                NewSnapshot(w.running[t][r].now.row.value.document, capture, projection, occurrences, relations));
      StateHeld(w, t, r);
      PutShadow(w, t, r, w'.running[t][r]);
      assert Runs.Next(Shadow(w), Runs.AppendUnder(t, r, request, true, id), Shadow(w'));
  }

  lemma StateHeld(w: World, t: nat, r: Uuid)
    requires Holds(w, t, r)
    ensures t in Shadow(w).running && r in Shadow(w).running[t] && Shadow(w).running[t][r] == w.running[t][r].now.state
  {
  }

  /** Every statement is a step of the histories alone, or leaves them as they are. */
  lemma StepOfHistories(w: World, step: Step, w': World)
    requires Next(w, step, w') && forall t, r | Holds(w, t, r) :: Underway(w.running[t][r])
    ensures HistoriesStep(w, w')
  {
    hide Next, Underway, Shadow, HistoriesStep;
    match step
    case Begin(_) => FrameStep(w, step, w');
    case Register(_) => FrameStep(w, step, w');
    case Lock(_, _) => FrameStep(w, step, w');
    case Commit(_) => EndStep(w, step, w');
    case Rollback(_) => EndStep(w, step, w');
    case AppendPlain(_, _, _, _) => AppendStep(w, step, w');
    case Finish(_, _, _) => AppendStep(w, step, w');
    case CaptureFirst(_, _, _, _, _, _, _) => AppendStep(w, step, w');
    case _ => RowStep(w, step, w');
  }

  // ------------------------------------------------------------ what every statement keeps

  ghost predicate StaysInStep(x: Resource) {
    && (x.row.Some? ==> x.state.kind == Object && x.state.typed)
    && (x.row.Some? && x.state.history != [] ==> Agrees(x.state.history, x.row.value, x.addressing))
  }

  /** What a transaction sees of a resource it has locked, wherever its write of it has come to. */
  ghost predicate Underway(held: Held) {
    match held.stage
    case Settled => StaysInStep(held.now)
    case Updated(before, expected, draft) =>
      && StaysInStep(before) && Writable(before, expected, draft) && draft.TypedSnapshot?
      && held.now == before.(row := Some(RowAfter(before.row.value, draft)))
    case Readdressed(before, expected, draft) =>
      && StaysInStep(before) && Writable(before, expected, draft)
      && held.now == before.(row := Some(RowAfter(before.row.value, draft)),
                             addressing := if draft.TypedSnapshot? then multiset(draft.occurrences)
                               else before.addressing)
  }

  lemma BeforeHasSameState(held: Held)
    requires Underway(held) && !held.stage.Settled?
    ensures held.stage.before.state == held.now.state && StaysInStep(held.stage.before)
  {
  }

  ghost predicate Invariant(w: World) {
    && Runs.Invariant(Shadow(w))
    && (forall r <- w.committed :: StaysInStep(w.committed[r]))
    && (forall t, r | Holds(w, t, r) :: Underway(w.running[t][r]))
  }

  /** The append at the end of a coordinated write is never refused, and puts the resource back in step. */
  lemma FinishLands(held: Held, id: Uuid)
    requires Underway(held) && held.stage.Readdressed? && Lawful(held.now.state)
    ensures Appended(held.now.state, FinishRequest(held.stage), true, id).Ok?
    ensures StaysInStep(held.now.(state := Appended(held.now.state, FinishRequest(held.stage), true, id).value))
  {
    var before, draft := held.stage.before, held.stage.draft;
    hide LawfulHistory;
    CoordinatedAppend(held.now.state, held.stage.expected, draft, id);
    var history := held.now.state.history;
    assert (history + [Stored(history, DraftOf(draft), id)])[|history|] == Stored(history, DraftOf(draft), id);
  }

  /** A plain append never touches a resource with a typed row. */
  lemma PlainStaysInStep(x: Resource, request: Request, id: Uuid)
    requires StaysInStep(x) && Appended(x.state, request, false, id).Ok?
    ensures StaysInStep(x.(state := Appended(x.state, request, false, id).value))
  {
  }

  lemma CapturedIsInStep(x: Resource, request: Request, id: Uuid)
    requires StaysInStep(x) && x.state.history == [] && x.row.Some? && x.row.value.deleted.None?
    requires request.kind == Object && request.draft.NewSnapshot? && request.draft.document == x.row.value.document
    requires multiset(request.draft.addressing) == x.addressing && Appended(x.state, request, true, id).Ok?
    ensures StaysInStep(x.(state := Appended(x.state, request, true, id).value))
  {
    var revision := Stored([], request.draft, id);
    assert [] + [revision] == [revision];
  }

  lemma HeldIsLawful(w: World, t: nat, r: Uuid)
    requires Invariant(w) && Holds(w, t, r)
    ensures Lawful(w.running[t][r].now.state)
    ensures w.running[t][r].now.state.kind == Unknown ==> w.running[t][r].now.state.history == []
  {
    hide LawfulHistory, Underway, StaysInStep;
    var s := Shadow(w);
    assert Runs.SoundHeld(s, s.running[t]);
    assert s.running[t][r] == w.running[t][r].now.state;
  }

  /** What a statement leaves of the resource it is about. */
  lemma StatementStaysUnderway(w: World, step: Step, w': World, t: nat, r: Uuid)
    requires Invariant(w) && Next(w, step, w') && Holds(w, t, r) && Holds(w', t, r)
    requires step.AppendPlain? || step.Update? || step.Readdress? || step.Finish? || step.Undo? || step.Insert?
             || step.PromoteOther? || step.CaptureFirst?
    requires step.t == t && step.r == r
    ensures Underway(w'.running[t][r])
  {
    HeldIsLawful(w, t, r);
    var held := w.running[t][r];
    assert Underway(held);
    hide Runs.Invariant, LawfulHistory, Shadow, Invariant;
    match step
    case AppendPlain(_, _, request, id) =>
      if Appended(held.now.state, request, false, id).Ok? { PlainStaysInStep(held.now, request, id); }
    case Finish(_, _, id) => FinishLands(held, id);
    case CaptureFirst(_, _, id, capture, projection, occurrences, relations) =>
      CapturedIsInStep(held.now,
                       Request(Object, None,
                               NewSnapshot(held.now.row.value.document, capture, projection, occurrences, relations)),
                                 id);
    case _ =>
  }

  lemma NextKeepsHistories(w: World, step: Step, w': World)
    requires Invariant(w) && Next(w, step, w')
    ensures Runs.Invariant(Shadow(w'))
  {
    hide Next, Shadow, Underway, Runs.Invariant, Runs.Next;
    StepOfHistories(w, step, w');
    if s :| Runs.Next(Shadow(w), s, Shadow(w')) { Runs.NextKeepsInvariant(Shadow(w), s, Shadow(w')); }
  }

  lemma NextKeepsUnderway(w: World, step: Step, w': World, t: nat, r: Uuid)
    requires Invariant(w) && Next(w, step, w') && Holds(w', t, r)
    ensures Underway(w'.running[t][r])
  {
    if Holds(w, t, r) && w'.running[t][r] != w.running[t][r] {
      SameOrOwn(w, step, w', t, r);
      StatementStaysUnderway(w, step, w', t, r);
    } else {
      hide Underway, StaysInStep, Shadow, Runs.Invariant;
      if !Holds(w, t, r) { NewlyLocked(w, step, w', t, r); }
    }
  }

  lemma SameOrOwn(w: World, step: Step, w': World, t: nat, r: Uuid)
    requires Next(w, step, w') && Holds(w, t, r) && Holds(w', t, r) && w'.running[t][r] != w.running[t][r]
    ensures step.AppendPlain? || step.Update? || step.Readdress? || step.Finish? || step.Undo? || step.Insert?
            || step.PromoteOther? || step.CaptureFirst?
    ensures step.t == t && step.r == r
  {
    hide Writable, Appended, RowAfter;
  }

  lemma NewlyLocked(w: World, step: Step, w': World, t: nat, r: Uuid)
    requires Invariant(w) && Next(w, step, w') && Holds(w', t, r) && !Holds(w, t, r)
    ensures Underway(w'.running[t][r])
  {
    hide Writable, Appended, RowAfter, StaysInStep, Shadow, Runs.Invariant;
    assert step.Lock? && r in w.committed && w'.running[t][r] == Held(w.committed[r], Settled);
  }

  lemma NextKeepsCommitted(w: World, step: Step, w': World, r: Uuid)
    requires Invariant(w) && Next(w, step, w') && r in w'.committed
    ensures StaysInStep(w'.committed[r])
  {
    if step.Commit? && r in w.running[step.t] {
      assert Holds(w, step.t, r) && Underway(w.running[step.t][r]);
    } else {
      hide Writable, Appended, RowAfter, Shadow, Runs.Invariant, Underway;
    }
  }

  /** No statement of any transaction breaks a history, or takes a committed resource out of step. */
  lemma NextKeepsInvariant(w: World, step: Step, w': World)
    requires Invariant(w) && Next(w, step, w')
    ensures Invariant(w')
  {
    NextKeepsHistories(w, step, w');
    forall r <- w'.committed ensures StaysInStep(w'.committed[r]) { NextKeepsCommitted(w, step, w', r); }
    forall t, r | Holds(w', t, r) ensures Underway(w'.running[t][r]) { NextKeepsUnderway(w, step, w', t, r); }
  }

  // ------------------------------------------------------------ whole runs

  ghost predicate IsRun(worlds: seq<World>, steps: seq<Step>) {
    |worlds| == |steps| + 1 && forall i | 0 <= i < |steps| :: Next(worlds[i], steps[i], worlds[i + 1])
  }

  lemma {:induction false} RunKeepsInvariant(worlds: seq<World>, steps: seq<Step>, i: nat)
    requires IsRun(worlds, steps) && Invariant(worlds[0]) && i < |worlds|
    ensures Invariant(worlds[i])
  {
    hide Invariant, Next;
    if i > 0 {
      RunKeepsInvariant(worlds, steps, i - 1);
      NextKeepsInvariant(worlds[i - 1], steps[i - 1], worlds[i]);
    }
  }

  /**
   * At every point of every interleaving, each committed object with a typed row is in step with its
   * history: live with a snapshot head of the same document and addressing, or deleted with a whiteout
   * head that inherits the addressing it still has.
   */
  lemma CommittedStayInStep(worlds: seq<World>, steps: seq<Step>, i: nat, r: Uuid)
    requires IsRun(worlds, steps) && Invariant(worlds[0]) && i < |worlds|
    requires r in worlds[i].committed && worlds[i].committed[r].row.Some? && worlds[i].committed[r].state.history != []
    ensures Agrees(worlds[i].committed[r].state.history, worlds[i].committed[r].row.value,
                   worlds[i].committed[r].addressing)
  {
    RunKeepsInvariant(worlds, steps, i);
    hide Runs.Invariant, Shadow, Underway;
    assert StaysInStep(worlds[i].committed[r]);
  }

  /** In every run, a coordinated write that has come to its append lands: it is never refused. */
  lemma WritesLand(worlds: seq<World>, steps: seq<Step>, i: nat)
    requires IsRun(worlds, steps) && Invariant(worlds[0]) && i < |steps| && steps[i].Finish?
    ensures var t, r := steps[i].t, steps[i].r;
            && Holds(worlds[i], t, r) && Holds(worlds[i + 1], t, r)
            && worlds[i + 1].running[t][r].stage == Settled
            && |worlds[i + 1].running[t][r].now.state.history| == |worlds[i].running[t][r].now.state.history| + 1
  {
    RunKeepsInvariant(worlds, steps, i);
    var w, step := worlds[i], steps[i];
    assert Next(w, step, worlds[i + 1]);
    HeldIsLawful(w, step.t, step.r);
    FinishLands(w.running[step.t][step.r], step.id);
  }

  // ------------------------------------------------------------ what transactions achieve

  /** What is committed changes by commits and registrations alone, and a commit publishes exactly what was held. */
  lemma CommitsInWords(w: World, step: Step, w': World, r: Uuid)
    requires Next(w, step, w')
    ensures step.Commit? ==>
              && step.t in w.running && step.t !in w'.running
              && (r in w.running[step.t] ==> r in w'.committed && w'.committed[r] == w.running[step.t][r].now)
    ensures !(step.Commit? && r in w.running[step.t]) && r in w.committed ==>
              r in w'.committed && w'.committed[r] == w.committed[r]
    ensures r in w'.committed && r !in w.committed ==>
              (step == Register(r) && w'.committed[r] == NEW_RESOURCE) || (step.Commit? && r in w.running[step.t])
  {
    hide Writable, Appended;
  }

  /** The resource a coordinated write of a live object in step leaves, column by column and revision by revision. */
  ghost predicate IsWritten(before: Resource, draft: TypedDraft, id: Uuid, after: Resource)
    requires before.row.Some? && before.state.history != []
  {
    && after.state.kind == Object && after.row.Some? && |after.state.history| == |before.state.history| + 1
    && after.state.history[..|before.state.history|] == before.state.history
    && var row, row', last := before.row.value, after.row.value, Head(before.state.history).value;
       var added := Head(after.state.history).value;
       && added.id == id && added.sequence == |after.state.history|
       && match draft
          case TypedSnapshot(document, columns, updated, occurrences, relations, projection) =>
            && row'.document == document && row'.columns == columns && row'.updated == updated && !row'.fetched
            && row'.deleted == row.deleted && after.addressing == multiset(occurrences)
            && added.content == Snapshot(document) && added.capture == Local && added.projection == projection
            && added.addressing == occurrences && added.relations == relations
          case TypedWhiteout(deleted, formerTypes) =>
            && row'.deleted == Some(deleted) && row'.document == row.document && row'.columns == row.columns
            && row'.updated == row.updated && row'.fetched == row.fetched && after.addressing == before.addressing
            && added.content == Whiteout(deleted, formerTypes) && added.capture == last.capture
            && added.projection == last.projection && added.addressing == last.addressing
            && added.relations == last.relations
  }

  /** What each statement of a coordinated write leaves, the last one included. */
  ghost function WrittenNow(before: Resource, expected: Option<Uuid>, draft: TypedDraft, id: Uuid): Resource
    requires before.row.Some?
  {
    var row := Some(RowAfter(before.row.value, draft));
    var addressing := if draft.TypedSnapshot? then multiset(draft.occurrences) else before.addressing;
    var appended := Appended(before.state, Request(Object, expected, DraftOf(draft)), true, id);
    Resource(if appended.Ok? then appended.value else before.state, row, addressing)
  }

  lemma WrittenNowIsWritten(before: Resource, expected: Option<Uuid>, draft: TypedDraft, id: Uuid)
    requires Writable(before, expected, draft) && Lawful(before.state)
    ensures before.row.Some? && before.state.history != []
    ensures Appended(before.state, Request(Object, expected, DraftOf(draft)), true, id).Ok?
    ensures IsWritten(before, draft, id, WrittenNow(before, expected, draft, id))
  {
    hide WellFormed;
  }

  /** The world in which one transaction holds one resource, and has come this far with it. */
  ghost function Holding(w: World, t: nat, r: Uuid, held: Held): World {
    w.(running := w.running[t := map[r := held]])
  }

  lemma PutHolding(w: World, t: nat, r: Uuid, held: Held, other: Held)
    ensures Put(Holding(w, t, r, held), t, r, other) == Holding(w, t, r, other)
  {
    assert map[r := held][r := other] == map[r := other];
    assert w.running[t := map[r := held]][t := map[r := other]] == w.running[t := map[r := other]];
  }

  lemma AloneLocks(w: World, t: nat, r: Uuid) returns (begun: World)
    requires t !in w.running && r in w.committed && forall u <- w.running :: r !in w.running[u]
    ensures Next(w, Begin(t), begun) && Next(begun, Lock(t, r), Holding(w, t, r, Held(w.committed[r], Settled)))
  {
    begun := w.(running := w.running[t := map[]]);
    var held := Held(w.committed[r], Settled);
    assert begun.running[t] == map[] && map[][r := held] == map[r := held];
    assert begun.running[t := map[r := held]] == w.running[t := map[r := held]];
  }

  lemma AloneUpdates(w: World, t: nat, r: Uuid, before: Resource, expected: Option<Uuid>, draft: TypedDraft)
    requires Writable(before, expected, draft)
    ensures var updated := before.(row := Some(RowAfter(before.row.value, draft)));
            var stage := if draft.TypedSnapshot? then Updated(before, expected, draft)
                         else Readdressed(before, expected, draft);
            Next(Holding(w, t, r, Held(before, Settled)), Update(t, r, expected, draft),
                 Holding(w, t, r, Held(updated, stage)))
  {
    var updated := before.(row := Some(RowAfter(before.row.value, draft)));
    hide RowAfter;
    var stage := if draft.TypedSnapshot? then Updated(before, expected, draft)
      else Readdressed(before, expected, draft);
    PutHolding(w, t, r, Held(before, Settled), Held(updated, stage));
  }

  lemma AloneReaddresses(w: World, t: nat, r: Uuid, now: Resource, before: Resource, expected: Option<Uuid>,
                         draft: TypedDraft)
    requires draft.TypedSnapshot?
    ensures Next(Holding(w, t, r, Held(now, Updated(before, expected, draft))), Readdress(t, r),
                 Holding(w, t, r, Held(now.(addressing := multiset(draft.occurrences)),
                                       Readdressed(before, expected, draft))))
  {
    PutHolding(w, t, r, Held(now, Updated(before, expected, draft)),
               Held(now.(addressing := multiset(draft.occurrences)), Readdressed(before, expected, draft)));
  }

  lemma AloneFinishes(w: World, t: nat, r: Uuid, now: Resource, before: Resource, expected: Option<Uuid>,
                      draft: TypedDraft, id: Uuid)
    requires id !in w.used && Appended(now.state, Request(Object, expected, DraftOf(draft)), true, id).Ok?
    ensures var after := Appended(now.state, Request(Object, expected, DraftOf(draft)), true, id).value;
            Next(Holding(w, t, r, Held(now, Readdressed(before, expected, draft))), Finish(t, r, id),
                 Inserted(Holding(w, t, r, Held(now.(state := after), Settled)), r, id, expected))
  {
    hide Appended, DraftOf;
    var after := Appended(now.state, Request(Object, expected, DraftOf(draft)), true, id).value;
    PutHolding(w, t, r, Held(now, Readdressed(before, expected, draft)), Held(now.(state := after), Settled));
  }

  lemma AloneCommits(w: World, t: nat, r: Uuid, written: Resource, id: Uuid, expected: Option<Uuid>)
    returns (done: World)
    requires t !in w.running && r in w.committed
    ensures Next(Inserted(Holding(w, t, r, Held(written, Settled)), r, id, expected), Commit(t), done)
    ensures done.running == w.running && done.committed == w.committed[r := written]
  {
    var finished := Inserted(Holding(w, t, r, Held(written, Settled)), r, id, expected);
    done := finished.(committed := w.committed[r := written], running := w.running);
    assert finished.running - {t} == w.running;
    var held := finished.running[t];
    assert w.committed + (map x | x in held :: held[x].now) == w.committed[r := written];
  }

  /** The typed row and its addressing as the write leaves them, the history as it was. */
  ghost function Prepared(before: Resource, draft: TypedDraft): Resource
    requires before.row.Some?
  {
    Resource(before.state, Some(RowAfter(before.row.value, draft)),
             if draft.TypedSnapshot? then multiset(draft.occurrences) else before.addressing)
  }

  lemma AlonePrepares(w: World, t: nat, r: Uuid, before: Resource, expected: Option<Uuid>, draft: TypedDraft)
    returns (worlds: seq<World>, steps: seq<Step>)
    requires Writable(before, expected, draft)
    ensures IsRun(worlds, steps) && worlds[0] == Holding(w, t, r, Held(before, Settled))
    ensures worlds[|steps|] == Holding(w, t, r, Held(Prepared(before, draft), Readdressed(before, expected, draft)))
  {
    AloneUpdates(w, t, r, before, expected, draft);
    var start := Holding(w, t, r, Held(before, Settled));
    var updated := before.(row := Some(RowAfter(before.row.value, draft)));
    hide Writable, RowAfter, Next;
    var ready := Holding(w, t, r, Held(Prepared(before, draft), Readdressed(before, expected, draft)));
    if draft.TypedSnapshot? {
      AloneReaddresses(w, t, r, updated, before, expected, draft);
      var half := Holding(w, t, r, Held(updated, Updated(before, expected, draft)));
      hide Holding;
      worlds, steps := [start, half, ready], [Update(t, r, expected, draft), Readdress(t, r)];
    } else {
      assert Prepared(before, draft) == updated;
      hide Holding;
      worlds, steps := [start, ready], [Update(t, r, expected, draft)];
    }
  }

  lemma RunsJoin(worlds: seq<World>, steps: seq<Step>, more: seq<World>, rest: seq<Step>)
    requires IsRun(worlds, steps) && IsRun(more, rest) && worlds[|steps|] == more[0]
    ensures IsRun(worlds + more[1..], steps + rest)
    ensures (worlds + more[1..])[0] == worlds[0] && (worlds + more[1..])[|steps + rest|] == more[|rest|]
  {
    hide Next;
    var all, path := worlds + more[1..], steps + rest;
    forall i | 0 <= i < |path| ensures Next(all[i], path[i], all[i + 1]) {
      if i < |steps| {
        assert all[i] == worlds[i] && all[i + 1] == worlds[i + 1] && path[i] == steps[i];
      } else {
        assert all[i] == more[i - |steps|] && all[i + 1] == more[i - |steps| + 1] && path[i] == rest[i - |steps|];
      }
    }
  }

  /**
   * A coordinated write of a live object in step that nobody holds goes through, and row, addressing and
   * revision are committed together.
   */
  lemma AloneWrites(w: World, t: nat, r: Uuid, expected: Option<Uuid>, draft: TypedDraft, id: Uuid)
    returns (worlds: seq<World>, steps: seq<Step>)
    requires t !in w.running && r in w.committed && (forall u <- w.running :: r !in w.running[u]) && id !in w.used
    requires Writable(w.committed[r], expected, draft) && Lawful(w.committed[r].state)
    ensures IsRun(worlds, steps) && worlds[0] == w
    ensures w.committed[r].row.Some? && w.committed[r].state.history != []
    ensures var last := worlds[|steps|];
            && last.running == w.running && last.committed.Keys == w.committed.Keys
            && (forall other <- w.committed | other != r :: last.committed[other] == w.committed[other])
            && IsWritten(w.committed[r], draft, id, last.committed[r])
  {
    var before := w.committed[r];
    WrittenNowIsWritten(before, expected, draft, id);
    var written := WrittenNow(before, expected, draft, id);
    assert written == Prepared(before, draft).(state := written.state);
    AloneFinishes(w, t, r, Prepared(before, draft), before, expected, draft, id);
    hide IsWritten, Writable, Appended, Lawful, RowAfter, DraftOf, Next, Holding, Inserted, WrittenNow, Prepared;
    var begun := AloneLocks(w, t, r);
    var locked := Holding(w, t, r, Held(before, Settled));
    var middle, path := AlonePrepares(w, t, r, before, expected, draft);
    var ready := middle[|path|];
    var finished := Inserted(Holding(w, t, r, Held(written, Settled)), r, id, expected);
    var done := AloneCommits(w, t, r, written, id, expected);
    RunsJoin([w, begun, locked], [Begin(t), Lock(t, r)], middle, path);
    worlds, steps := [w, begun, locked] + middle[1..], [Begin(t), Lock(t, r)] + path;
    RunsJoin(worlds, steps, [ready, finished, done], [Finish(t, r, id), Commit(t)]);
    worlds, steps := worlds + [ready, finished, done][1..], steps + [Finish(t, r, id), Commit(t)];
  }
}
