/**
 * Preparers that bring one PostgreSQL database up to date, each on a session of its own, under one
 * advisory lock.  Interrupts and timeouts may come at any wait; the server may end a session, and so
 * free its lock, at any time, long before the preparer hears of it.
 */
module Preparation {
  import opened Wrappers

  datatype Code =
    | Aborted | ConnectionFailed | LockTimeout | InspectionFailed
    | IncompatibleHistory | MigrationFailed | CleanupFailed

  /** What an inspection of the history finds. */
  datatype History = Ready | Upgradable | Incompatible

  /** What a preparer waits for; once the server has run a query, with its answer, which is still to be read. */
  datatype Point =
    | Fresh | Connecting | Trying(answer: Option<bool>) | Delaying
    | Inspecting(read: Option<History>) | Migrating(done: bool) | Rechecking(read: Option<History>)
    | Unlocking(answer: Option<bool>) | Ending | Done

  datatype Session = Session(at: Point, interrupted: Option<Code>, key: bool, failure: Option<Code>, found: bool,
                             cleanupFailed: bool)

  const NEW_SESSION := Session(Fresh, None, false, None, false, false)

  // ------------------------------------------------------------ one uninterrupted stretch of a preparer

  /** The first interrupt counts; a later one changes nothing. */
  function Interrupted(s: Session, code: Code): Session {
    if s.interrupted.Some? then s else s.(interrupted := Some(code))
  }

  /** Closing: the lock is given back on a working session only; an interrupted one is already cut off. */
  function Closing(s: Session): Session {
    s.(at := if !s.key || s.interrupted.Some? then Ending else Unlocking(None))
  }

  /** A failure is named after the interrupt that caused it, if there was one. */
  function Failed(s: Session, code: Code): Session {
    Closing(s.(failure := if s.interrupted.Some? then s.interrupted else Some(code)))
  }

  /** Whatever was awaited, an interrupt in the meantime fails the preparer. */
  function Checked(s: Session, ok: bool, code: Code, next: Session): Session {
    if s.interrupted.Some? || !ok then Failed(s, code) else next
  }

  function Started(s: Session, aborted: bool): Session {
    var t := if aborted then Interrupted(s, Aborted) else s;
    Checked(t, true, ConnectionFailed, t.(at := Connecting))
  }

  function Connected(s: Session, ok: bool): Session {
    Checked(s, ok, ConnectionFailed, s.(at := Trying(None)))
  }

  function Answered(s: Session, ok: bool, locked: bool): Session {
    Checked(s, ok, ConnectionFailed, if locked then s.(key := true, at := Inspecting(None)) else s.(at := Delaying))
  }

  function Delayed(s: Session): Session {
    Checked(s, true, ConnectionFailed, s.(at := Trying(None)))
  }

  function Inspected(s: Session, ok: bool, history: History): Session {
    Checked(s, ok, InspectionFailed,
            if history == Incompatible then Failed(s, IncompatibleHistory)
            else s.(at := if history == Ready then Rechecking(None) else Migrating(false)))
  }

  function Migrated(s: Session, ok: bool): Session {
    Checked(s, ok, MigrationFailed, s.(at := Rechecking(None)))
  }

  function Rechecked(s: Session, ok: bool, history: History): Session {
    Checked(s, ok, InspectionFailed,
            if history == Ready then Closing(s.(found := true)) else Failed(s, IncompatibleHistory))
  }

  function CleanupFails(s: Session): Session {
    Interrupted(s, CleanupFailed).(cleanupFailed := true)
  }

  function Unlocked(s: Session, ok: bool): Session {
    (if ok && s.interrupted.None? then s else CleanupFails(s)).(at := Ending)
  }

  /** The end: an interrupt that came too late to fail the work fails the call. */
  function Ended(s: Session, ok: bool): Session {
    var t := if ok then s else CleanupFails(s);
    t.(at := Done, failure := if t.failure.Some? then t.failure else t.interrupted)
  }

  // ------------------------------------------------------------ the session object

  class MigrationSession {
    var interrupted: Option<Code>
    var connecting: bool
    var key: bool
    var connected: bool

    constructor ()
      ensures interrupted == None && !connecting && !key && connected
    {
      interrupted, connecting, key, connected := None, false, false, true;
    }

    /** Keeps the first error and cuts the connection, in whatever state it is. */
    method Interrupt(code: Code)
      modifies this`interrupted, this`connected
      ensures interrupted == Interrupted(NEW_SESSION.(interrupted := old(interrupted)), code).interrupted
      ensures !connected
    {
      if interrupted.None? { interrupted := Some(code); }
      connected := false;
    }

    /** Fails with the first interrupt, if there was any. */
    method Check() returns (failure: Option<Code>)
      ensures failure == interrupted
    {
      return interrupted;
    }

    /** Takes one answer to an attempt at the lock; the key is recorded only if nothing came in between. */
    method TakeAnswer(locked: bool) returns (failure: Option<Code>)
      requires !key
      modifies this`key
      ensures failure == old(interrupted)
      ensures key <==> locked && old(interrupted).None?
    {
      failure := Check();
      if failure.None? && locked { key := true; }
    }
  }

  // ------------------------------------------------------------ all preparers of one database

  /** `alive` are the sessions the server runs; a preparer may hear late that its session has ended. */
  datatype World = World(sessions: map<nat, Session>, alive: set<nat>, lock: Option<nat>, history: History)

  datatype Step =
    | Enter(id: nat)
    | Interrupt(id: nat, code: Code)
    // what the server does
    | TryLock(id: nat) | ReadHistory(id: nat) | RunSql(id: nat, after: History) | FreeLock(id: nat) | Drop(id: nat)
    // what a preparer does when something it awaited comes back
    | Start(id: nat, aborted: bool) | Connect(id: nat, ok: bool)
    | Answer(id: nat) | LoseAnswer(id: nat) | Delay(id: nat)
    | Inspect(id: nat, ok: bool) | Migrate(id: nat, ok: bool) | Recheck(id: nat, ok: bool)
    | Unlock(id: nat, ok: bool) | End(id: nat, ok: bool) | CleanupTimeout(id: nat)

  /** Between acquiring the lock and giving it back. */
  predicate Working(s: Session) {
    s.key && (s.at.Inspecting? || s.at.Migrating? || s.at.Rechecking? || s.at == Unlocking(None))
  }

  ghost predicate Moves(w: World, id: nat, s: Session, w': World) {
    id in w.sessions && w' == w.(sessions := w.sessions[id := s])
  }

  /** The server runs a query of a session, and has an answer for it. */
  ghost predicate Serves(w: World, id: nat, at: Point, lock: Option<nat>, history: History, w': World) {
    && id in w.sessions && id in w.alive
    && w' == w.(sessions := w.sessions[id := w.sessions[id].(at := at)], lock := lock, history := history)
  }

  ghost predicate ServerNext(w: World, step: Step, w': World)
    requires step.TryLock? || step.ReadHistory? || step.RunSql? || step.FreeLock? || step.Drop?
  {
    match step
    case TryLock(id) =>
      && id in w.sessions && w.sessions[id].at == Trying(None)
      && Serves(w, id, Trying(Some(w.lock.None?)), if w.lock.None? then Some(id) else w.lock, w.history, w')
    case ReadHistory(id) =>
      && id in w.sessions
      && (w.sessions[id].at == Inspecting(None) || w.sessions[id].at == Rechecking(None))
      && Serves(w, id, w.sessions[id].at.(read := Some(w.history)), w.lock, w.history, w')
    case RunSql(id, after) =>
      && id in w.sessions && w.sessions[id].at.Migrating?
      && w.history != Incompatible && after != Incompatible && (w.history == Ready ==> after == Ready)
      && Serves(w, id, Migrating(true), w.lock, after, w')
    case FreeLock(id) =>
      && id in w.sessions && w.sessions[id].at == Unlocking(None)
      && Serves(w, id, Unlocking(Some(w.lock == Some(id))), if w.lock == Some(id) then None else w.lock, w.history, w')
    case Drop(id) =>
      && id in w.alive && id in w.sessions
      && w' == w.(alive := w.alive - {id}, lock := if w.lock == Some(id) then None else w.lock)
  }

  ghost predicate Next(w: World, step: Step, w': World) {
    match step
    case Enter(id) =>
      && id !in w.sessions && id !in w.alive
      && w' == w.(sessions := w.sessions[id := NEW_SESSION], alive := w.alive + {id})
    case Interrupt(id, code) =>
      && id in w.sessions && w.sessions[id].at != Done
      && Moves(w, id, Interrupted(w.sessions[id], code), w')
    case Start(id, aborted) =>
      && id in w.sessions && w.sessions[id].at == Fresh
      && Moves(w, id, Started(w.sessions[id], aborted), w')
    case Connect(id, ok) =>
      && id in w.sessions && w.sessions[id].at == Connecting && (ok ==> id in w.alive)
      && Moves(w, id, Connected(w.sessions[id], ok), w')
    case Answer(id) =>
      && id in w.sessions && w.sessions[id].at.Trying? && w.sessions[id].at.answer.Some?
      && Moves(w, id, Answered(w.sessions[id], true, w.sessions[id].at.answer.value), w')
    case LoseAnswer(id) =>
      && id in w.sessions && w.sessions[id].at.Trying? && (w.sessions[id].interrupted.Some? || id !in w.alive)
      && Moves(w, id, Answered(w.sessions[id], false, false), w')
    case Delay(id) =>
      && id in w.sessions && w.sessions[id].at == Delaying
      && Moves(w, id, Delayed(w.sessions[id]), w')
    case Inspect(id, ok) =>
      && id in w.sessions && w.sessions[id].at.Inspecting? && (ok ==> w.sessions[id].at.read.Some?)
      && Moves(w, id, Inspected(w.sessions[id], ok, if ok then w.sessions[id].at.read.value else Incompatible), w')
    case Migrate(id, ok) =>
      && id in w.sessions && w.sessions[id].at.Migrating? && (ok ==> w.sessions[id].at.done)
      && Moves(w, id, Migrated(w.sessions[id], ok), w')
    case Recheck(id, ok) =>
      && id in w.sessions && w.sessions[id].at.Rechecking? && (ok ==> w.sessions[id].at.read.Some?)
      && Moves(w, id, Rechecked(w.sessions[id], ok, if ok then w.sessions[id].at.read.value else Incompatible), w')
    case Unlock(id, ok) =>   // nothing is sent over a connection that is known to be gone
      && id in w.sessions && w.sessions[id].at.Unlocking?
         && (ok ==> w.sessions[id].at.answer == Some(true) || id !in w.alive)
      && Moves(w, id, Unlocked(w.sessions[id], ok), w')
    case End(id, ok) =>
      && id in w.sessions && w.sessions[id].at == Ending
      && Moves(w, id, Ended(w.sessions[id], ok), w')
    case CleanupTimeout(id) =>
      && id in w.sessions && (w.sessions[id].at.Unlocking? || w.sessions[id].at == Ending)
      && Moves(w, id, CleanupFails(w.sessions[id]), w')
    case _ => ServerNext(w, step, w')
  }

  // ------------------------------------------------------------ what every step keeps

  ghost predicate SessionHolds(w: World, id: nat, s: Session) {
    // A session that works, or has been told it may, holds the lock for as long as the server runs it.
    && (id in w.alive && (Working(s) || s.at == Trying(Some(true))) ==> w.lock == Some(id))
    && (s.at.Inspecting? || s.at.Migrating? || s.at.Rechecking? || s.at.Unlocking? ==> s.key)
    && (s.at == Fresh || s.at == Connecting || s.at.Trying? || s.at == Delaying ==> !s.key)
    // The work ends with a failure or with a ready history, and never with a failure forgotten.
    && (s.at.Unlocking? || s.at == Ending || s.at == Done ==> s.failure.Some? || s.found)
    && (!s.at.Unlocking? && s.at != Ending && s.at != Done ==> s.failure.None? && !s.found)
    && (s.found || s.at == Rechecking(Some(Ready)) ==> w.history == Ready)
    && (s.at == Done && s.failure.None? ==> s.interrupted.None? && s.found)
  }

  ghost predicate Invariant(w: World) {
    && (forall id <- w.sessions :: SessionHolds(w, id, w.sessions[id]))
    && (w.lock.Some? ==> w.lock.value in w.alive && w.lock.value in w.sessions)
    && w.alive <= w.sessions.Keys
  }

  /**
   * One session moves; the lock changes only by being taken while free, or given up by its holder, and
   * a ready history stays ready.
   */
  lemma OneMoves(w: World, id: nat, s: Session, w': World)
    requires Invariant(w) && id in w.sessions
    requires w'.sessions == w.sessions[id := s] && w'.alive == w.alive
    requires || w'.lock == w.lock
             || (w.lock == None && w'.lock == Some(id) && id in w.alive)
             || (w.lock == Some(id) && w'.lock == None)
    requires w.history == Ready ==> w'.history == Ready
    requires SessionHolds(w', id, s)
    ensures Invariant(w')
  {
    forall other <- w'.sessions ensures SessionHolds(w', other, w'.sessions[other]) {
      if other != id { assert SessionHolds(w, other, w.sessions[other]); }
    }
  }

  predicate IsAwait(step: Step) {
    || step.Start? || step.Connect? || step.Answer? || step.LoseAnswer? || step.Delay?
    || step.Inspect? || step.Migrate? || step.Recheck?
  }

  predicate IsServed(step: Step) {
    step.TryLock? || step.ReadHistory? || step.RunSql? || step.FreeLock?
  }

  /** Before the lock is recorded. */
  lemma LockingHolds(w: World, step: Step, w': World)
    requires Invariant(w) && Next(w, step, w')
    requires step.Start? || step.Connect? || step.Answer? || step.LoseAnswer? || step.Delay?
    ensures SessionHolds(w', step.id, w'.sessions[step.id])
  {
    assert SessionHolds(w, step.id, w.sessions[step.id]);
  }

  /** Under the lock. */
  lemma WorkHolds(w: World, step: Step, w': World)
    requires Invariant(w) && Next(w, step, w')
    requires step.Inspect? || step.Migrate? || step.Recheck?
    ensures SessionHolds(w', step.id, w'.sessions[step.id])
  {
    assert SessionHolds(w, step.id, w.sessions[step.id]);
  }

  /** At the end. */
  lemma EndHolds(w: World, step: Step, w': World)
    requires Invariant(w) && Next(w, step, w')
    requires step.Interrupt? || step.Unlock? || step.End? || step.CleanupTimeout?
    ensures SessionHolds(w', step.id, w'.sessions[step.id])
  {
    assert SessionHolds(w, step.id, w.sessions[step.id]);
  }

  lemma ServedHolds(w: World, step: Step, w': World)
    requires Invariant(w) && Next(w, step, w') && IsServed(step)
    ensures SessionHolds(w', step.id, w'.sessions[step.id])
  {
    assert SessionHolds(w, step.id, w.sessions[step.id]);
  }

  /** Every step but three is the move of one session. */
  lemma StepIsMove(w: World, step: Step, w': World)
    requires Next(w, step, w') && !step.Enter? && !step.Drop?
    ensures step.id in w.sessions && step.id in w'.sessions
    ensures w'.sessions == w.sessions[step.id := w'.sessions[step.id]] && w'.alive == w.alive
    ensures || w'.lock == w.lock
            || (w.lock == None && w'.lock == Some(step.id) && step.id in w.alive)
            || (w.lock == Some(step.id) && w'.lock == None)
    ensures w.history == Ready ==> w'.history == Ready
  {
    hide Checked, Failed, Started, Connected, Answered, Delayed, Inspected, Migrated, Rechecked, CleanupFails,
         Unlocked, Ended;
  }

  lemma NextKeepsInvariant(w: World, step: Step, w': World)
    requires Invariant(w) && Next(w, step, w')
    ensures Invariant(w')
  {
    if step.Enter? || step.Drop? {
      hide Working;
      forall other <- w'.sessions ensures SessionHolds(w', other, w'.sessions[other]) {
        if other in w.sessions { assert SessionHolds(w, other, w.sessions[other]); } else { NewHolds(w', other); }
      }
    } else {
      hide Invariant, SessionHolds, Next;
      StepIsMove(w, step, w');
      if step.Inspect? || step.Migrate? || step.Recheck? { WorkHolds(w, step, w'); }
      else if IsAwait(step) { LockingHolds(w, step, w'); }
      else if IsServed(step) { ServedHolds(w, step, w'); }
      else { EndHolds(w, step, w'); }
      OneMoves(w, step.id, w'.sessions[step.id], w');
    }
  }

  lemma NewHolds(w: World, id: nat)
    ensures SessionHolds(w, id, NEW_SESSION)
  {
  }

  // ------------------------------------------------------------ whole runs

  ghost predicate IsRun(worlds: seq<World>, steps: seq<Step>) {
    && |worlds| == |steps| + 1 && worlds[0].sessions == map[] && worlds[0].alive == {} && worlds[0].lock == None
    && forall i | 0 <= i < |steps| :: Next(worlds[i], steps[i], worlds[i + 1])
  }

  lemma {:induction false} RunKeepsInvariant(worlds: seq<World>, steps: seq<Step>, i: nat)
    requires IsRun(worlds, steps) && i < |worlds|
    ensures Invariant(worlds[i])
  {
    hide Next;
    if i > 0 {
      hide Invariant;
      RunKeepsInvariant(worlds, steps, i - 1);
      NextKeepsInvariant(worlds[i - 1], steps[i - 1], worlds[i]);
    }
  }

  /** Of two preparers between acquire and close, the server no longer runs the session of one. */
  lemma OneWorksAtATime(worlds: seq<World>, steps: seq<Step>, i: nat, a: nat, b: nat)
    requires IsRun(worlds, steps) && i < |worlds| && a != b
    requires a in worlds[i].sessions && b in worlds[i].sessions && Working(worlds[i].sessions[a])
             && Working(worlds[i].sessions[b])
    ensures a !in worlds[i].alive || b !in worlds[i].alive
  {
    RunKeepsInvariant(worlds, steps, i);
    assert SessionHolds(worlds[i], a, worlds[i].sessions[a]) && SessionHolds(worlds[i], b, worlds[i].sessions[b]);
  }

  /**
   * An interrupt ends the work at the next thing awaited: the preparer fails with the interrupt's
   * code and goes to its end.
   */
  lemma InterruptEndsWork(w: World, step: Step, w': World)
    requires Invariant(w) && Next(w, step, w') && step.id in w.sessions && w.sessions[step.id].interrupted.Some?
    requires IsAwait(step)
    ensures w'.sessions[step.id].failure == w.sessions[step.id].interrupted && w'.sessions[step.id].at == Ending
    ensures !Working(w'.sessions[step.id]) && w'.lock == w.lock
  {
    assert SessionHolds(w, step.id, w.sessions[step.id]);
  }

  /** Migrations run on the session that holds the lock. */
  lemma SqlRunsUnderTheLock(worlds: seq<World>, steps: seq<Step>, i: nat)
    requires IsRun(worlds, steps) && i < |steps| && steps[i].RunSql?
    ensures worlds[i].lock == Some(steps[i].id)
  {
    RunKeepsInvariant(worlds, steps, i);
    assert Next(worlds[i], steps[i], worlds[i + 1]);
    assert SessionHolds(worlds[i], steps[i].id, worlds[i].sessions[steps[i].id]);
  }

  /**
   * A preparer returns normally exactly when it ends without a failure; then nothing interrupted
   * it, and the history is ready.
   */
  lemma NormalReturnIsReady(worlds: seq<World>, steps: seq<Step>, i: nat, id: nat)
    requires IsRun(worlds, steps) && i < |worlds| && id in worlds[i].sessions && worlds[i].sessions[id].at == Done
    ensures var s := worlds[i].sessions[id];
            && (s.failure.None? ==> s.found && s.interrupted.None? && worlds[i].history == Ready)
            && (s.interrupted.Some? ==> s.failure.Some?)
  {
    RunKeepsInvariant(worlds, steps, i);
    assert SessionHolds(worlds[i], id, worlds[i].sessions[id]);
  }

  /** The code of the first interrupt is kept, and so is the failure it led to. */
  lemma FirstCodeIsKept(w: World, step: Step, w': World, id: nat)
    requires Invariant(w) && Next(w, step, w') && id in w.sessions
    ensures id in w'.sessions
    ensures w.sessions[id].interrupted.Some? ==> w'.sessions[id].interrupted == w.sessions[id].interrupted
    ensures w.sessions[id].failure.Some? ==> w'.sessions[id].failure == w.sessions[id].failure
    ensures w.sessions[id].failure.None? && w'.sessions[id].failure.Some? && w'.sessions[id].interrupted.Some? ==>
              w'.sessions[id].failure == w'.sessions[id].interrupted
  {
    assert SessionHolds(w, id, w.sessions[id]);
    hide Invariant;
  }

  lemma {:induction false} CodesStay(worlds: seq<World>, steps: seq<Step>, i: nat, j: nat, id: nat)
    requires IsRun(worlds, steps) && i <= j < |worlds| && id in worlds[i].sessions
    ensures id in worlds[j].sessions
    ensures worlds[i].sessions[id].interrupted.Some? ==>
              worlds[j].sessions[id].interrupted == worlds[i].sessions[id].interrupted
    ensures worlds[i].sessions[id].failure.Some? ==> worlds[j].sessions[id].failure == worlds[i].sessions[id].failure
  {
    hide Invariant, Next;
    if i < j {
      CodesStay(worlds, steps, i, j - 1, id);
      RunKeepsInvariant(worlds, steps, j - 1);
      FirstCodeIsKept(worlds[j - 1], steps[j - 1], worlds[j], id);
    }
  }

  // ------------------------------------------------------------ taking the lock

  const WORKER := Session(Inspecting(None), None, true, None, false, false)

  function At(point: Point): Session { NEW_SESSION.(at := point) }

  /** A preparer is granted a free lock in four steps. */
  lemma IsGranted(w: World, id: nat) returns (worlds: seq<World>, steps: seq<Step>)
    requires id !in w.sessions && id !in w.alive && w.lock == None
    ensures Continues(w, worlds, steps) && forall step: Step <- steps :: step.id == id && !step.RunSql?
    ensures worlds[|steps|] == World(w.sessions[id := At(Trying(Some(true)))], w.alive + {id}, Some(id), w.history)
  {
    var w1 := w.(sessions := w.sessions[id := NEW_SESSION], alive := w.alive + {id});
    var w2 := w1.(sessions := w1.sessions[id := At(Connecting)]);
    var w3 := w2.(sessions := w2.sessions[id := At(Trying(None))]);
    var w4 := w3.(sessions := w3.sessions[id := At(Trying(Some(true)))], lock := Some(id));
    assert Next(w, Enter(id), w1) && Next(w1, Start(id, false), w2) && Next(w2, Connect(id, true), w3);
    assert Next(w3, TryLock(id), w4);
    worlds, steps := [w, w1, w2, w3, w4], [Enter(id), Start(id, false), Connect(id, true), TryLock(id)];
    assert w4.sessions == w.sessions[id := At(Trying(Some(true)))];
  }

  /** And takes it in five. */
  lemma Acquires(w: World, id: nat) returns (worlds: seq<World>, steps: seq<Step>)
    requires id !in w.sessions && id !in w.alive && w.lock == None
    ensures Continues(w, worlds, steps) && forall step: Step <- steps :: step.id == id && !step.RunSql?
    ensures worlds[|steps|] == World(w.sessions[id := WORKER], w.alive + {id}, Some(id), w.history)
  {
    var some, path := IsGranted(w, id);
    var granted := some[|path|];
    var works := granted.(sessions := granted.sessions[id := WORKER]);
    assert Next(granted, Answer(id), works);
    hide Next;
    worlds, steps := some + [works], path + [Answer(id)];
    assert works.sessions == w.sessions[id := WORKER];
  }

  // ------------------------------------------------------------ when another preparer can get in

  ghost predicate Continues(w: World, worlds: seq<World>, steps: seq<Step>) {
    && |worlds| == |steps| + 1 && worlds[0] == w
    && forall i | 0 <= i < |steps| :: Next(worlds[i], steps[i], worlds[i + 1])
  }

  /** None of the steps is one of `a`. */
  predicate Spares(steps: seq<Step>, a: nat) {
    forall step: Step <- steps :: step.id != a
  }

  predicate WorksIn(w: World, id: nat) {
    id in w.sessions && Working(w.sessions[id])
  }

  /** Without a step of `a`, another preparer can begin to work. */
  ghost predicate LetsAnotherIn(w: World, a: nat) {
    exists worlds, steps, b ::
      && Continues(w, worlds, steps) && Spares(steps, a)
      && b != a && !WorksIn(w, b) && WorksIn(worlds[|steps|], b)
  }

  /** A preparer has been told by the server that it got the lock, and is still to read it. */
  predicate HasGrant(w: World, id: nat) {
    id in w.sessions && w.sessions[id].at == Trying(Some(true)) && w.sessions[id].interrupted.None?
  }

  /** Work begins in one place only: when an uncut session reads that it got the lock. */
  lemma WorkBegins(w: World, step: Step, w': World, b: nat)
    requires Invariant(w) && Next(w, step, w') && !WorksIn(w, b) && WorksIn(w', b)
    ensures HasGrant(w, b)
  {
    if b in w.sessions { assert SessionHolds(w, b, w.sessions[b]); }
  }

  /** While the lock is taken, nobody else is granted it. */
  lemma NoNewGrant(w: World, step: Step, w': World, b: nat)
    requires Invariant(w) && Next(w, step, w') && w.lock.Some? && !HasGrant(w, b)
    ensures !HasGrant(w', b)
  {
  }

  lemma LockStays(w: World, step: Step, w': World, a: nat)
    requires Invariant(w) && Next(w, step, w') && step.id != a && a in w.alive && w.lock == Some(a)
    ensures a in w'.alive && w'.lock == Some(a)
  {
  }

  /**
   * While the server runs its session, a working preparer that takes no step keeps out all others but
   * those that have been granted the lock before and are still to read it.
   */
  lemma {:induction false} NoOtherGetsIn(w: World, worlds: seq<World>, steps: seq<Step>, a: nat, b: nat, i: nat)
    requires Invariant(w) && Continues(w, worlds, steps) && Spares(steps, a) && i < |worlds|
    requires a in w.alive && w.lock == Some(a) && b != a && !WorksIn(w, b) && !HasGrant(w, b)
    ensures Invariant(worlds[i]) && a in worlds[i].alive && worlds[i].lock == Some(a)
    ensures !WorksIn(worlds[i], b) && !HasGrant(worlds[i], b)
  {
    hide Invariant, Next, WorksIn, HasGrant;
    if i > 0 {
      NoOtherGetsIn(w, worlds, steps, a, b, i - 1);
      var from, step, to := worlds[i - 1], steps[i - 1], worlds[i];
      assert step in steps && Next(from, step, to);
      NextKeepsInvariant(from, step, to);
      LockStays(from, step, to, a);
      NoNewGrant(from, step, to, b);
      if WorksIn(to, b) { WorkBegins(from, step, to, b); }
    }
  }

  lemma {:induction false} SomeNewId(used: set<nat>) returns (id: nat)
    ensures id !in used && forall other <- used :: other < id
  {
    id := 0;
    if used != {} {
      var some :| some in used;
      var rest := SomeNewId(used - {some});
      id := if some < rest then rest else some + 1;
      forall other <- used ensures other < id { assert other == some || other in used - {some}; }
    }
  }

  /** Any lock held by a session other than `a` can be freed: the server ends that session. */
  lemma LockIsFreed(w: World, a: nat) returns (worlds: seq<World>, steps: seq<Step>)
    requires Invariant(w) && w.lock != Some(a)
    ensures Continues(w, worlds, steps) && Spares(steps, a)
    ensures var last := worlds[|steps|]; last.lock == None && last.sessions == w.sessions && last.alive <= w.alive
  {
    if w.lock.None? {
      worlds, steps := [w], [];
    } else {
      var c := w.lock.value;
      var dropped := w.(alive := w.alive - {c}, lock := None);
      assert Next(w, Drop(c), dropped);
      worlds, steps := [w, dropped], [Drop(c)];
    }
  }

  lemma Joined(w: World, worlds: seq<World>, steps: seq<Step>, more: seq<World>, rest: seq<Step>)
    requires Continues(w, worlds, steps) && Continues(worlds[|steps|], more, rest)
    ensures Continues(w, worlds + more[1..], steps + rest)
    ensures (worlds + more[1..])[|steps + rest|] == more[|rest|]
  {
    hide Next;
    var all, path := worlds + more[1..], steps + rest;
    forall i | 0 <= i < |path| ensures Next(all[i], path[i], all[i + 1]) {
      if i < |steps| {
        assert all[i] == worlds[i] && all[i + 1] == worlds[i + 1] && path[i] == steps[i];
      } else {
        assert all[i] == more[i - |steps|] && all[i + 1] == more[i - |steps| + 1] && path[i] == rest[i - |steps|];
      }
    }
  }

  lemma AnotherGetsIn(w: World, a: nat)
    requires Invariant(w) && a in w.sessions && a !in w.alive
    ensures LetsAnotherIn(w, a)
  {
    hide Next;
    var worlds, steps := LockIsFreed(w, a);
    var free := worlds[|steps|];
    var b := SomeNewId(w.sessions.Keys + w.alive);
    var more, rest := Acquires(free, b);
    Joined(w, worlds, steps, more, rest);
    var all, path := worlds + more[1..], steps + rest;
    assert WorksIn(all[|path|], b);
    assert !WorksIn(w, b) && b != a;
    assert Spares(path, a);
  }

  /** A grant can be read, whatever has become of the session since. */
  lemma GrantIsRead(w: World, a: nat, b: nat)
    requires HasGrant(w, b) && b != a
    ensures LetsAnotherIn(w, a)
  {
    var to := w.(sessions := w.sessions[b := Answered(w.sessions[b], true, true)]);
    assert Next(w, Answer(b), to);
    var worlds, steps := [w, to], [Answer(b)];
    assert Continues(w, worlds, steps) && Spares(steps, a);
    assert !WorksIn(w, b) && WorksIn(worlds[|steps|], b);
  }

  /**
   * Exactly how exclusive a working preparer is.  It holds the lock as long as the server runs its
   * session.  Without a step of that session another preparer can begin to work beside it exactly when
   * the server no longer runs it, or when the other was granted the lock before, lost it with its own
   * session, and has not read the grant yet.
   */
  lemma AnotherGetsInExactlyWhen(worlds: seq<World>, steps: seq<Step>, i: nat, a: nat)
    requires IsRun(worlds, steps) && i < |worlds| && WorksIn(worlds[i], a)
    ensures a in worlds[i].alive <==> worlds[i].lock == Some(a)
    ensures LetsAnotherIn(worlds[i], a) <==> a !in worlds[i].alive || exists b :: b != a && HasGrant(worlds[i], b)
    ensures a in worlds[i].alive ==> forall b | b != a && HasGrant(worlds[i], b) :: b !in worlds[i].alive
  {
    var w := worlds[i];
    RunKeepsInvariant(worlds, steps, i);
    assert SessionHolds(w, a, w.sessions[a]);
    forall b | b != a && HasGrant(w, b) ensures LetsAnotherIn(w, a) && (a in w.alive ==> b !in w.alive) {
      GrantIsRead(w, a, b);
      assert SessionHolds(w, b, w.sessions[b]);
    }
    hide Invariant, Next, WorksIn, HasGrant;
    if a !in w.alive {
      AnotherGetsIn(w, a);
    } else if LetsAnotherIn(w, a) {
      var on, path, b :| Continues(w, on, path) && Spares(path, a) && b != a && !WorksIn(w, b)
        && WorksIn(on[|path|], b);
      if !HasGrant(w, b) { NoOtherGetsIn(w, on, path, a, b, |path|); }
    }
  }

  // ------------------------------------------------------------ a preparer that is left alone

  /** The work up to the last look at the history: reading it, and migrating if there is anything to do. */
  lemma Upgrades(w: World, id: nat) returns (worlds: seq<World>, steps: seq<Step>)
    requires id in w.sessions && w.sessions[id] == WORKER && id in w.alive && w.history != Incompatible
    ensures Continues(w, worlds, steps) && forall step: Step <- steps :: step.id == id
    ensures worlds[|steps|] == World(w.sessions[id := WORKER.(at := Rechecking(None))], w.alive, w.lock, Ready)
    ensures w.history == Ready ==> forall step: Step <- steps :: !step.RunSql?
  {
    var w1 := w.(sessions := w.sessions[id := WORKER.(at := Inspecting(Some(w.history)))]);
    assert Next(w, ReadHistory(id), w1);
    var last := World(w.sessions[id := WORKER.(at := Rechecking(None))], w.alive, w.lock, Ready);
    if w.history == Ready {
      assert last == w1.(sessions := w1.sessions[id := WORKER.(at := Rechecking(None))]);
      assert Next(w1, Inspect(id, true), last);
      worlds, steps := [w, w1, last], [ReadHistory(id), Inspect(id, true)];
    } else {
      var w2 := w1.(sessions := w1.sessions[id := WORKER.(at := Migrating(false))]);
      var w3 := w2.(sessions := w2.sessions[id := WORKER.(at := Migrating(true))], history := Ready);
      assert last == w3.(sessions := w3.sessions[id := WORKER.(at := Rechecking(None))]);
      assert Next(w1, Inspect(id, true), w2) && Next(w2, RunSql(id, Ready), w3) && Next(w3, Migrate(id, true), last);
      worlds, steps := [w, w1, w2, w3, last],
        [ReadHistory(id), Inspect(id, true), RunSql(id, Ready), Migrate(id, true)];
    }
  }

  const RETURNED := Session(Done, None, true, None, true, false)

  /** Then the history is found ready. */
  lemma Confirms(w: World, id: nat) returns (worlds: seq<World>, steps: seq<Step>)
    requires id in w.sessions && w.sessions[id] == WORKER.(at := Rechecking(None)) && id in w.alive
             && w.history == Ready
    ensures Continues(w, worlds, steps) && forall step: Step <- steps :: step.id == id && !step.RunSql?
    ensures worlds[|steps|] == w.(sessions := w.sessions[id := RETURNED.(at := Unlocking(None))])
  {
    var w1 := w.(sessions := w.sessions[id := WORKER.(at := Rechecking(Some(Ready)))]);
    var w2 := w1.(sessions := w1.sessions[id := RETURNED.(at := Unlocking(None))]);
    assert Next(w, ReadHistory(id), w1) && Next(w1, Recheck(id, true), w2);
    worlds, steps := [w, w1, w2], [ReadHistory(id), Recheck(id, true)];
    assert w2.sessions == w.sessions[id := RETURNED.(at := Unlocking(None))];
  }

  /** And the lock is given back, and the session ends. */
  lemma Finishes(w: World, id: nat) returns (worlds: seq<World>, steps: seq<Step>)
    requires id in w.sessions && w.sessions[id] == RETURNED.(at := Unlocking(None)) && id in w.alive
    requires w.lock == Some(id)
    ensures Continues(w, worlds, steps) && forall step: Step <- steps :: step.id == id && !step.RunSql?
    ensures worlds[|steps|] == w.(sessions := w.sessions[id := RETURNED], lock := None)
  {
    var w1 := w.(sessions := w.sessions[id := RETURNED.(at := Unlocking(Some(true)))], lock := None);
    var w2 := w1.(sessions := w1.sessions[id := RETURNED.(at := Ending)]);
    var w3 := w2.(sessions := w2.sessions[id := RETURNED]);
    assert Next(w, FreeLock(id), w1) && Next(w1, Unlock(id, true), w2) && Next(w2, End(id, true), w3);
    worlds, steps := [w, w1, w2, w3], [FreeLock(id), Unlock(id, true), End(id, true)];
    assert w3.sessions == w.sessions[id := RETURNED];
  }

  /**
   * A preparer that finds the lock free and is left alone can return normally on every history that is
   * not incompatible: it leaves the history ready and the lock free, and on a history that is ready
   * already it runs no migration.
   */
  lemma LonePreparerReturns(w: World, id: nat) returns (worlds: seq<World>, steps: seq<Step>)
    requires id !in w.sessions && id !in w.alive && w.lock == None && w.history != Incompatible
    ensures Continues(w, worlds, steps) && forall step: Step <- steps :: step.id == id
    ensures worlds[|steps|] == World(w.sessions[id := RETURNED], w.alive + {id}, None, Ready)
    ensures w.history == Ready ==> forall step: Step <- steps :: !step.RunSql?
  {
    hide Next;
    var first, steps1 := Acquires(w, id);
    var second, steps2 := Upgrades(first[|steps1|], id);
    Joined(w, first, steps1, second, steps2);
    var some, path := first + second[1..], steps1 + steps2;
    var third, steps3 := Confirms(some[|path|], id);
    Joined(w, some, path, third, steps3);
    some, path := some + third[1..], path + steps3;
    var fourth, steps4 := Finishes(some[|path|], id);
    Joined(w, some, path, fourth, steps4);
    worlds, steps := some + fourth[1..], path + steps4;
    assert worlds[|steps|].sessions == w.sessions[id := RETURNED];
  }

  /**
   * What a failure is called: after the interrupt, if there was one; else after what was being done,
   * and an incompatible history only where such a history was read.
   */
  lemma FailuresInWords(w: World, step: Step, w': World)
    requires Invariant(w) && Next(w, step, w') && !step.Enter? && !step.Drop?
    requires step.id in w.sessions && w.sessions[step.id].failure.None? && w'.sessions[step.id].failure.Some?
    ensures var s, s' := w.sessions[step.id], w'.sessions[step.id];
            && (s'.interrupted.Some? ==> s'.failure == s'.interrupted)
            && (s'.interrupted.None? ==>
                  && s'.key == s.key && s'.at == (if s.key then Unlocking(None) else Ending)
                  && match s.at
                     case Connecting => s'.failure == Some(ConnectionFailed)
                     case Trying(_) => s'.failure == Some(ConnectionFailed) && step.id !in w.alive
                     case Migrating(_) => s'.failure == Some(MigrationFailed)
                     case Inspecting(read) => FailsReading(read, s'.failure.value)
                     case Rechecking(read) =>
                       FailsReading(read, s'.failure.value)
                       || (read == Some(Upgradable) && s'.failure == Some(IncompatibleHistory))
                     case _ => false)
  {
    assert SessionHolds(w, step.id, w.sessions[step.id]);
  }

  /** How reading the history fails: the query itself, or that the history read is incompatible. */
  predicate FailsReading(read: Option<History>, code: Code) {
    code == InspectionFailed || (code == IncompatibleHistory && read == Some(Incompatible))
  }

  // ------------------------------------------------------------ two workers at once

  /**
   * Being between acquire and close is not exclusive by itself: the server may end a session and give
   * its lock to another before the preparer hears of it, and nothing has interrupted either.
   */
  lemma TwoMayWork() returns (worlds: seq<World>, steps: seq<Step>)
    ensures IsRun(worlds, steps)
    ensures var last := worlds[|steps|];
            && WorksIn(last, 1) && WorksIn(last, 2)
            && last.sessions[1].interrupted.None? && last.sessions[2].interrupted.None?
  {
    hide Next;
    var start := World(map[], {}, None, Upgradable);
    var first, steps1 := Acquires(start, 1);
    var held := first[|steps1|];
    var dropped := held.(alive := held.alive - {1}, lock := None);
    Dropped(held, 1, dropped);
    Joined(start, first, steps1, [held, dropped], [Drop(1)]);
    var second, steps2 := Acquires(dropped, 2);
    var some, path := first + [held, dropped][1..], steps1 + [Drop(1)];
    assert some[|path|] == dropped;
    Joined(start, some, path, second, steps2);
    worlds, steps := some + second[1..], path + steps2;
  }

  lemma Dropped(held: World, id: nat, dropped: World)
    requires id in held.alive && id in held.sessions && held.lock == Some(id)
    requires dropped == held.(alive := held.alive - {id}, lock := None)
    ensures Next(held, Drop(id), dropped)
  {
  }

  /**
   * Nor is it exclusive for a preparer whose session the server runs: another may read late that it
   * got the lock, which it lost with its session.
   */
  lemma LateGrantGetsIn() returns (worlds: seq<World>, steps: seq<Step>)
    ensures IsRun(worlds, steps)
    ensures var last := worlds[|steps|];
            && WorksIn(last, 1) && 1 in last.alive && last.lock == Some(1)
            && HasGrant(last, 2) && LetsAnotherIn(last, 1)
  {
    hide Next;
    var start := World(map[], {}, None, Upgradable);
    var first, steps1 := IsGranted(start, 2);
    var granted := first[|steps1|];
    var dropped := granted.(alive := granted.alive - {2}, lock := None);
    Dropped(granted, 2, dropped);
    Joined(start, first, steps1, [granted, dropped], [Drop(2)]);
    var second, steps2 := Acquires(dropped, 1);
    var some, path := first + [granted, dropped][1..], steps1 + [Drop(2)];
    assert some[|path|] == dropped;
    Joined(start, some, path, second, steps2);
    worlds, steps := some + second[1..], path + steps2;
    GrantIsRead(worlds[|steps|], 1, 2);
  }
}
