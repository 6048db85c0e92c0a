/**
 * Concurrent transactions on the revision tables.  A transaction reads and writes a resource's rows
 * only under that resource's row lock, which it keeps until it ends; until it commits, its writes are
 * its own.
 */
module RevisionRuns {
  import opened Wrappers
  import opened RevisionHistory

  /** The resources a transaction has locked, as it sees them. */
  type Held = map<Uuid, State>

  /** What an append asked for; kept for every revision ever inserted, committed or not. */
  datatype Append = Append(resource: Uuid, expected: Option<Uuid>)

  datatype World = World(committed: map<Uuid, State>, running: map<nat, Held>, used: set<Uuid>,
                         issued: map<Uuid, Append>)

  datatype Step =
    | Begin(t: nat)
    | Register(resource: Uuid)
    | Lock(t: nat, resource: Uuid)
    | AppendUnder(t: nat, resource: Uuid, request: Request, coordinated: bool, id: Uuid)
    | Promote(t: nat, resource: Uuid, kind: ResourceKind)
    | Commit(t: nat)
    | Rollback(t: nat)

  ghost predicate Free(w: World, resource: Uuid) {
    forall t <- w.running :: resource !in w.running[t]
  }

  ghost predicate Next(w: World, step: Step, w': World) {
    match step
    case Begin(t) => t !in w.running && w' == w.(running := w.running[t := map[]])
    case Register(resource) =>
      resource !in w.committed && w' == w.(committed := w.committed[resource := State(Unknown, [], false)])
    case Lock(t, resource) =>
      && t in w.running && resource in w.committed && Free(w, resource)
      && w' == w.(running := w.running[t := w.running[t][resource := w.committed[resource]]])
    case AppendUnder(t, resource, request, coordinated, id) =>
      && t in w.running && resource in w.running[t] && request.Valid() && id !in w.used
      && (match Appended(w.running[t][resource], request, coordinated, id)
          case Err(_) => w' == w
          case Ok(after) =>
            w' == World(w.committed, w.running[t := w.running[t][resource := after]], w.used + {id},
                        w.issued[id := Append(resource, request.expected)]))
    case Promote(t, resource, kind) =>
      && t in w.running && resource in w.running[t] && w.running[t][resource].kind == Unknown && kind != Unknown
      && w' == w.(running := w.running[t := w.running[t][resource :=
                    w.running[t][resource].(kind := kind, typed := kind == Object || kind == Activity)]])
    case Commit(t) =>
      t in w.running && w' == w.(committed := w.committed + w.running[t], running := w.running - {t})
    case Rollback(t) => t in w.running && w' == w.(running := w.running - {t})
  }

  ghost predicate IsRun(worlds: seq<World>, steps: seq<Step>) {
    |worlds| == |steps| + 1 && forall i | 0 <= i < |steps| :: Next(worlds[i], steps[i], worlds[i + 1])
  }

  // ------------------------------------------------------------ what every step keeps

  /** Every revision an append inserted follows the revision that the append expected. */
  ghost predicate Chained(history: seq<Revision>, resource: Uuid, issued: map<Uuid, Append>) {
    forall i | 0 <= i < |history| && history[i].id in issued ::
      issued[history[i].id] == Append(resource, HeadId(history[..i]))
  }

  ghost predicate Known(history: seq<Revision>, used: set<Uuid>) {
    forall revision <- history :: revision.id in used
  }

  ghost predicate Sound(w: World, resource: Uuid, state: State) {
    Lawful(state) && Chained(state.history, resource, w.issued) && Known(state.history, w.used)
  }

  ghost predicate Prefix(some: seq<Revision>, all: seq<Revision>) {
    |some| <= |all| && all[..|some|] == some
  }

  ghost predicate SoundHeld(w: World, held: Held) {
    forall resource <- held ::
      resource in w.committed && Sound(w, resource, held[resource])
      && Prefix(w.committed[resource].history, held[resource].history)
  }

  ghost predicate Invariant(w: World) {
    && w.issued.Keys <= w.used
    && (forall resource <- w.committed :: Sound(w, resource, w.committed[resource]))
    && (forall t <- w.running :: SoundHeld(w, w.running[t]))
    && (forall t, u | t in w.running && u in w.running && t != u :: w.running[t].Keys !! w.running[u].Keys)
  }

  lemma MoreIssued(w: World, w': World, resource: Uuid, state: State, id: Uuid, append: Append)
    requires Sound(w, resource, state) && id !in w.used
    requires w'.used == w.used + {id} && w'.issued == w.issued[id := append]
    ensures Sound(w', resource, state)
  {
    hide Lawful;
    forall i | 0 <= i < |state.history| ensures state.history[i].id != id { assert state.history[i] in state.history; }
  }

  lemma AppendIsSound(w: World, w': World, resource: Uuid, state: State, request: Request, coordinated: bool, id: Uuid)
    requires Sound(w, resource, state) && request.Valid() && id !in w.used && w.issued.Keys <= w.used
    requires Appended(state, request, coordinated, id).Ok?
    requires w'.used == w.used + {id} && w'.issued == w.issued[id := Append(resource, request.expected)]
    ensures var after := Appended(state, request, coordinated, id).value;
            Sound(w', resource, after) && Prefix(state.history, after.history)
  {
    hide Lawful, Chained, Known, LawfulHistory;
    var after := Appended(state, request, coordinated, id).value;
    assert FreshIn(state.history, id) by { KnownIsFresh(state.history, w.used, id); }
    AppendKeepsLaw(state, request, coordinated, id);
    AppendExtends(state, request, coordinated, id);
    MoreIssued(w, w', resource, state, id, Append(resource, request.expected));
    OneMoreIsChained(state.history, Stored(state.history, request.draft, id), resource, w'.issued, w'.used);
  }

  lemma KnownIsFresh(history: seq<Revision>, used: set<Uuid>, id: Uuid)
    requires Known(history, used) && id !in used
    ensures FreshIn(history, id)
  {
  }

  lemma OneMoreIsChained(history: seq<Revision>, revision: Revision, resource: Uuid, issued: map<Uuid, Append>,
                         used: set<Uuid>)
    requires Chained(history, resource, issued) && Known(history, used) && revision.id in used
    requires revision.id in issued && issued[revision.id] == Append(resource, HeadId(history))
    ensures Chained(history + [revision], resource, issued) && Known(history + [revision], used)
  {
    var more := history + [revision];
    assert more[..|history|] == history;
    forall i | 0 <= i < |history| ensures more[..i] == history[..i] && more[i] == history[i] {}
  }

  /** One transaction's view of one resource changes to a sound one that extends what is committed. */
  lemma HeldStaysSound(w: World, w': World, t: nat, resource: Uuid, after: State)
    requires Invariant(w) && t in w.running && resource in w.committed
    requires resource in w.running[t] || Free(w, resource)
    requires w'.committed == w.committed && w'.running == w.running[t := w.running[t][resource := after]]
    requires w'.issued.Keys <= w'.used
    requires forall r, state | Sound(w, r, state) :: Sound(w', r, state)
    requires Sound(w', resource, after) && Prefix(w.committed[resource].history, after.history)
    ensures Invariant(w')
  {
    hide Sound, Prefix;
    forall u <- w'.running ensures SoundHeld(w', w'.running[u]) {
      assert SoundHeld(w, w.running[u]);
    }
  }

  lemma EverythingStaysSound(w: World, w': World, id: Uuid, append: Append)
    requires id !in w.used
    requires w'.used == w.used + {id} && w'.issued == w.issued[id := append]
    ensures forall r, state | Sound(w, r, state) :: Sound(w', r, state)
  {
    hide Sound;
    forall r, state | Sound(w, r, state) ensures Sound(w', r, state) { MoreIssued(w, w', r, state, id, append); }
  }

  lemma AppendKeepsInvariant(w: World, step: Step, w': World)
    requires Invariant(w) && step.AppendUnder? && Next(w, step, w')
    ensures Invariant(w')
  {
    var state := w.running[step.t][step.resource];
    assert SoundHeld(w, w.running[step.t]);
    hide Sound, Appended;
    if Appended(state, step.request, step.coordinated, step.id).Ok? {
      var after := Appended(state, step.request, step.coordinated, step.id).value;
      AppendIsSound(w, w', step.resource, state, step.request, step.coordinated, step.id);
      EverythingStaysSound(w, w', step.id, Append(step.resource, step.request.expected));
      assert Prefix(w.committed[step.resource].history, after.history);
      HeldStaysSound(w, w', step.t, step.resource, after);
    }
  }

  lemma PromotionIsSound(w: World, resource: Uuid, state: State, kind: ResourceKind)
    requires Sound(w, resource, state) && state.kind == Unknown
    ensures Sound(w, resource, state.(kind := kind, typed := kind == Object || kind == Activity))
    ensures state.history == []
  {
  }

  lemma SameRecords(w: World, w': World)
    requires w'.used == w.used && w'.issued == w.issued
    ensures forall r, state | Sound(w, r, state) :: Sound(w', r, state)
  {
  }

  lemma EndingKeepsInvariant(w: World, step: Step, w': World)
    requires Invariant(w) && (step.Commit? || step.Rollback?) && Next(w, step, w')
    ensures Invariant(w')
  {
    SameRecords(w, w');
    hide Sound, Prefix;
    assert SoundHeld(w, w.running[step.t]);
    forall u <- w'.running ensures SoundHeld(w', w'.running[u]) {
      assert SoundHeld(w, w.running[u]);
      assert w.running[u].Keys !! w.running[step.t].Keys;
    }
  }

  /** No step of any transaction breaks the history of any resource, committed or being written. */
  lemma NextKeepsInvariant(w: World, step: Step, w': World)
    requires Invariant(w) && Next(w, step, w')
    ensures Invariant(w')
  {
    match step
    case Begin(t) =>
      SameRecords(w, w');
      hide Sound;
      forall u <- w'.running ensures SoundHeld(w', w'.running[u]) {
        if u != t { assert SoundHeld(w, w.running[u]); }
      }
    case Register(resource) =>
      SameRecords(w, w');
      assert Sound(w', resource, State(Unknown, [], false));
      hide Sound;
      forall u <- w'.running ensures SoundHeld(w', w'.running[u]) { assert SoundHeld(w, w.running[u]); }
    case Lock(t, resource) =>
      SameRecords(w, w');
      hide Sound;
      HeldStaysSound(w, w', t, resource, w.committed[resource]);
    case AppendUnder(_, _, _, _, _) => AppendKeepsInvariant(w, step, w');
    case Promote(t, resource, kind) =>
      SameRecords(w, w');
      assert SoundHeld(w, w.running[t]);
      PromotionIsSound(w, resource, w.running[t][resource], kind);
      hide Sound;
      HeldStaysSound(w, w', t, resource, w'.running[t][resource]);
    case Commit(_) => EndingKeepsInvariant(w, step, w');
    case Rollback(_) => EndingKeepsInvariant(w, step, w');
  }

  // ------------------------------------------------------------ whole runs

  lemma {:induction false} RunKeepsInvariant(worlds: seq<World>, steps: seq<Step>, i: nat)
    requires IsRun(worlds, steps) && Invariant(worlds[0]) && i < |worlds|
    ensures Invariant(worlds[i])
  {
    hide Invariant, Next;
    if i > 0 {
      RunKeepsInvariant(worlds, steps, i - 1);
      NextKeepsInvariant(worlds[i - 1], steps[i - 1], worlds[i]);
    }
  }

  lemma NextOnlyGrows(w: World, step: Step, w': World, resource: Uuid)
    requires Invariant(w) && Next(w, step, w') && resource in w.committed
    ensures resource in w'.committed && Prefix(w.committed[resource].history, w'.committed[resource].history)
  {
    hide Sound;
    if step.Commit? { assert SoundHeld(w, w.running[step.t]); }
  }

  /** In every run, committed revisions stay as they are: each history only grows at its end. */
  lemma {:induction false} HistoryOnlyGrows(worlds: seq<World>, steps: seq<Step>, i: nat, j: nat, resource: Uuid)
    requires IsRun(worlds, steps) && Invariant(worlds[0]) && i <= j < |worlds|
    requires resource in worlds[i].committed
    ensures resource in worlds[j].committed
    ensures Prefix(worlds[i].committed[resource].history, worlds[j].committed[resource].history)
  {
    hide Invariant, Next;
    if i < j {
      HistoryOnlyGrows(worlds, steps, i, j - 1, resource);
      RunKeepsInvariant(worlds, steps, j - 1);
      NextOnlyGrows(worlds[j - 1], steps[j - 1], worlds[j], resource);
    }
  }

  ghost predicate IsCommitted(w: World, id: Uuid) {
    id in w.issued && ResourceOf(w, id) in w.committed
    && exists revision <- w.committed[ResourceOf(w, id)].history :: revision.id == id
  }

  ghost function ResourceOf(w: World, id: Uuid): Uuid
    requires id in w.issued
  {
    w.issued[id].resource
  }

  /** Of several appends to one resource with the same expectation, at most one ever commits. */
  lemma OneCommitPerExpectation(w: World, a: Uuid, b: Uuid)
    requires Invariant(w) && IsCommitted(w, a) && IsCommitted(w, b)
    requires w.issued[a] == w.issued[b]
    ensures a == b
  {
    var resource := w.issued[a].resource;
    var history := w.committed[resource].history;
    assert Sound(w, resource, w.committed[resource]);
    var i :| 0 <= i < |history| && history[i].id == a;
    var j :| 0 <= j < |history| && history[j].id == b;
    assert HeadId(history[..i]) == HeadId(history[..j]);
    assert i > 0 ==> history[..i][i - 1] == history[i - 1];
    assert j > 0 ==> history[..j][j - 1] == history[j - 1];
  }

  /**
   * At every point of every run: sequences 1..n, a single revision per activity, a whiteout never
   * first and always last.
   */
  lemma CommittedHistoriesAreLawful(worlds: seq<World>, steps: seq<Step>, i: nat, resource: Uuid)
    requires IsRun(worlds, steps) && Invariant(worlds[0]) && i < |worlds| && resource in worlds[i].committed
    ensures var state := worlds[i].committed[resource];
            && (forall k | 0 <= k < |state.history| :: state.history[k].sequence == k + 1)
            && (state.kind == Activity ==> |state.history| <= 1)
            && (forall k | 0 <= k < |state.history| && state.history[k].content.Whiteout? ::
                  0 < k == |state.history| - 1)
  {
    RunKeepsInvariant(worlds, steps, i);
  }

  // ------------------------------------------------------------ what transactions achieve

  /** What is committed changes by commits and registrations alone, and a commit publishes exactly what was held. */
  lemma CommitsInWords(w: World, step: Step, w': World, resource: Uuid)
    requires Next(w, step, w')
    ensures step.Commit? ==>
              && step.t in w.running && step.t !in w'.running
              && (resource in w.running[step.t] ==>
                    resource in w'.committed && w'.committed[resource] == w.running[step.t][resource])
    ensures !(step.Commit? && resource in w.running[step.t]) && resource in w.committed ==>
              resource in w'.committed && w'.committed[resource] == w.committed[resource]
    ensures resource in w'.committed && resource !in w.committed ==>
              || (step == Register(resource) && w'.committed[resource] == State(Unknown, [], false))
              || (step.Commit? && resource in w.running[step.t])
  {
  }

  /** An acceptable append to a resource that nobody holds goes through and is committed. */
  lemma AloneAppends(w: World, t: nat, resource: Uuid, request: Request, coordinated: bool, id: Uuid)
    returns (worlds: seq<World>, steps: seq<Step>)
    requires t !in w.running && resource in w.committed && Free(w, resource)
    requires request.Valid() && id !in w.used && Appended(w.committed[resource], request, coordinated, id).Ok?
    ensures IsRun(worlds, steps) && worlds[0] == w
    ensures var last := worlds[|steps|];
            && last.running == w.running && last.used == w.used + {id}
            && last.committed
                 == w.committed[resource := Appended(w.committed[resource], request, coordinated, id).value]
  {
    hide Appended;
    var state := w.committed[resource];
    var after := Appended(state, request, coordinated, id).value;
    var begun := w.(running := w.running[t := map[]]);
    var locked := begun.(running := begun.running[t := map[resource := state]]);
    var appended := World(w.committed, w.running[t := map[resource := after]], w.used + {id},
                          w.issued[id := Append(resource, request.expected)]);
    var done := appended.(committed := w.committed[resource := after], running := w.running);
    assert begun.running[t] == map[] && map[][resource := state] == map[resource := state];
    assert Next(w, Begin(t), begun);
    assert Next(begun, Lock(t, resource), locked);
    assert locked.running[t][resource := after] == map[resource := after];
    assert locked.running[t := map[resource := after]] == appended.running;
    assert Next(locked, AppendUnder(t, resource, request, coordinated, id), appended);
    assert appended.running - {t} == w.running;
    assert w.committed + map[resource := after] == w.committed[resource := after];
    assert Next(appended, Commit(t), done);
    worlds := [w, begun, locked, appended, done];
    steps := [Begin(t), Lock(t, resource), AppendUnder(t, resource, request, coordinated, id), Commit(t)];
  }
}
