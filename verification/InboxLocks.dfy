/**
 * Concurrent transactions storing received activities.  Each waits first for its host, then for the
 * IRIs it names, in one order, then for the row locks of what it promotes, in another order; what it
 * inserted or locked is its own until it ends.
 */
module InboxLocks {
  type Iri = string

  datatype Kind = Unknown | Actor | Object | Activity | Collection

  /** The order in which new IRIs are registered, and the database's order of rows. */
  datatype Orders = Orders(registering: Iri -> int, locking: Iri -> int)

  datatype Promotion = Promotion(iri: Iri, kind: Kind)

  /** What one transaction sets out to do. */
  datatype Plan = Plan(host: string, register: seq<Iri>, lock: seq<Iri>, promote: seq<Promotion>)

  ghost predicate Rising(order: Iri -> int, iris: seq<Iri>) {
    forall i, j | 0 <= i < j < |iris| :: order(iris[i]) < order(iris[j])
  }

  /** Registered and locked in order; everything locked was registered, everything promoted was locked. */
  ghost predicate WellPlanned(o: Orders, plan: Plan) {
    && Rising(o.registering, plan.register) && Rising(o.locking, plan.lock)
    && (forall iri <- plan.lock :: iri in plan.register)
    && (forall p <- plan.promote :: p.iri in plan.lock && p.kind != Unknown)
  }

  datatype Point = Hosting | Registering(i: nat) | Locking(i: nat) | Promoting(i: nat)

  datatype Txn = Txn(plan: Plan, at: Point, hosted: bool, inserted: set<Iri>, locked: set<Iri>,
                     promoted: map<Iri, Kind>)

  /**
   * `births` counts the committed insertions of resource rows, `typed` those of typed rows, and `founded`
   * those of host rows.
   */
  datatype World = World(hosts: set<string>, rows: map<Iri, Kind>, births: multiset<Iri>, typed: multiset<Iri>,
                         founded: multiset<string>, txns: map<nat, Txn>)

  /** `t` has to wait for `u` to end. */
  ghost predicate Waits(w: World, t: Txn, u: Txn) {
    match t.at
    case Hosting => t.plan.host !in w.hosts && u.hosted && u.plan.host == t.plan.host
    case Registering(i) =>
      i < |t.plan.register| && t.plan.register[i] !in w.rows && t.plan.register[i] !in t.inserted
        && t.plan.register[i] in u.inserted
    case Locking(i) => i < |t.plan.lock| && t.plan.lock[i] in u.locked
    case Promoting(_) => false
  }

  ghost predicate Blocked(w: World, id: nat) {
    id in w.txns && exists u :: u in w.txns && u != id && Waits(w, w.txns[id], w.txns[u])
  }

  /** The kind a transaction reads: its own change, or the newest committed one. */
  ghost function KindSeen(w: World, t: Txn, iri: Iri): Kind {
    if iri in t.promoted then t.promoted[iri] else if iri in w.rows then w.rows[iri] else Unknown
  }

  datatype Step = Begin(id: nat, plan: Plan) | Advance(id: nat) | Commit(id: nat) | Abort(id: nat)

  /** One statement of a transaction that need not wait. */
  ghost predicate Advances(w: World, t: Txn, t': Txn) {
    match t.at
    case Hosting => t' == t.(at := Registering(0), hosted := t.plan.host !in w.hosts)
    case Registering(i) =>
      if i < |t.plan.register| then
        var iri := t.plan.register[i];
        t' == t.(at := Registering(i + 1), inserted := t.inserted + if iri in w.rows then {} else {iri})
      else t' == t.(at := Locking(0))
    case Locking(i) =>
      if i < |t.plan.lock| then t' == t.(at := Locking(i + 1), locked := t.locked + {t.plan.lock[i]})
      else t' == t.(at := Promoting(0))
    case Promoting(i) =>
      && i < |t.plan.promote|
      && var p := t.plan.promote[i];
         if KindSeen(w, t, p.iri) == Unknown
           then t' == t.(at := Promoting(i + 1), promoted := t.promoted[p.iri := p.kind])
         else KindSeen(w, t, p.iri) == p.kind && t' == t.(at := Promoting(i + 1))
  }

  /** A resource is promoted only from unknown; any other kind ends the transaction instead. */
  ghost predicate Next(o: Orders, w: World, step: Step, w': World) {
    match step
    case Begin(id, plan) =>
      && id !in w.txns && WellPlanned(o, plan)
      && w' == w.(txns := w.txns[id := Txn(plan, Hosting, false, {}, {}, map[])])
    case Advance(id) =>
      && id in w.txns && !Blocked(w, id)
      && exists t' :: Advances(w, w.txns[id], t') && w' == w.(txns := w.txns[id := t'])
    case Commit(id) =>
      && id in w.txns && w.txns[id].at == Promoting(|w.txns[id].plan.promote|)
      && var t := w.txns[id];
         w' == World(w.hosts + (if t.hosted then {t.plan.host} else {}),
                     w.rows + (map iri | iri in t.inserted :: Unknown) + t.promoted,
                     w.births + multiset(t.inserted), w.typed + multiset(t.promoted.Keys),
                     w.founded + (if t.hosted then multiset{t.plan.host} else multiset{}), w.txns - {id})
    case Abort(id) => id in w.txns && w' == w.(txns := w.txns - {id})
  }

  // ------------------------------------------------------------ what every step keeps

  /** What a transaction has of its own, by how far it has come. */
  ghost predicate OnPlan(o: Orders, w: World, t: Txn) {
    && WellPlanned(o, t.plan) && (t.hosted ==> t.plan.host !in w.hosts)
    && (forall iri <- t.inserted :: iri in t.plan.register && iri !in w.rows)
    && (forall iri <- t.locked :: iri in t.plan.lock && (iri in w.rows || iri in t.inserted))
    && (forall iri <- t.promoted ::
          iri in t.locked && t.promoted[iri] != Unknown && (iri in w.rows ==> w.rows[iri] == Unknown))
    && Reached(o, w, t)
  }

  ghost predicate Reached(o: Orders, w: World, t: Txn) {
    match t.at
    case Hosting => !t.hosted && t.inserted == {} && t.locked == {} && t.promoted == map[]
    case Registering(i) =>
      && i <= |t.plan.register| && t.locked == {} && t.promoted == map[]
      && (forall iri <- t.inserted :: iri in t.plan.register[..i])
      && (forall iri <- t.plan.register[..i] :: iri in w.rows || iri in t.inserted)
    case Locking(i) =>
      && i <= |t.plan.lock| && t.promoted == map[]
      && (forall iri :: iri in t.locked <==> iri in t.plan.lock[..i])
      && (forall iri <- t.plan.register :: iri in w.rows || iri in t.inserted)
    case Promoting(i) =>
      i <= |t.plan.promote| && (forall iri :: iri in t.locked <==> iri in t.plan.lock)
  }

  /** No two transactions have inserted the same host, or inserted or locked the same resource. */
  ghost predicate Apart(t: Txn, u: Txn) {
    && t.inserted !! u.inserted && t.locked !! u.locked && t.inserted !! u.locked && u.inserted !! t.locked
    && !(t.hosted && u.hosted && t.plan.host == u.plan.host)
  }

  /** One insertion per host row. */
  ghost predicate HostsCounted(w: World) {
    forall host :: w.founded[host] == if host in w.hosts then 1 else 0
  }

  /** One insertion per resource row, and one typed row exactly when its kind is no longer unknown. */
  ghost predicate RowsCounted(w: World) {
    && (forall iri :: w.births[iri] == if iri in w.rows then 1 else 0)
    && (forall iri :: w.typed[iri] == if iri in w.rows && w.rows[iri] != Unknown then 1 else 0)
  }

  ghost predicate Counted(w: World) {
    HostsCounted(w) && RowsCounted(w)
  }

  ghost predicate Invariant(o: Orders, w: World) {
    && Counted(w)
    && (forall id <- w.txns :: OnPlan(o, w, w.txns[id]))
    && (forall id, other | id in w.txns && other in w.txns && id != other :: Apart(w.txns[id], w.txns[other]))
  }

  lemma RegisteringStaysOnPlan(o: Orders, w: World, t: Txn, t': Txn)
    requires OnPlan(o, w, t) && Advances(w, t, t') && t.at.Registering?
    ensures OnPlan(o, w, t')
  {
    hide WellPlanned;
    var i := t.at.i;
    if i < |t.plan.register| {
      assert t.plan.register[..i + 1] == t.plan.register[..i] + [t.plan.register[i]];
      assert t.plan.register[i] in t.plan.register;
    } else {
      assert t.plan.register[..i] == t.plan.register;
      assert t.plan.lock[..0] == [];
    }
  }

  lemma LockingStaysOnPlan(o: Orders, w: World, t: Txn, t': Txn)
    requires OnPlan(o, w, t) && Advances(w, t, t') && t.at.Locking?
    ensures OnPlan(o, w, t')
  {
    hide Rising;
    var i := t.at.i;
    if i < |t.plan.lock| {
      assert t.plan.lock[..i + 1] == t.plan.lock[..i] + [t.plan.lock[i]];
      assert t.plan.lock[i] in t.plan.lock;
    } else {
      assert t.plan.lock[..i] == t.plan.lock;
    }
  }

  lemma PromotingStaysOnPlan(o: Orders, w: World, t: Txn, t': Txn)
    requires OnPlan(o, w, t) && Advances(w, t, t') && t.at.Promoting?
    ensures OnPlan(o, w, t')
  {
    hide Rising;
    assert t.plan.promote[t.at.i] in t.plan.promote;
  }

  lemma AdvanceStaysOnPlan(o: Orders, w: World, t: Txn, t': Txn)
    requires OnPlan(o, w, t) && Advances(w, t, t')
    ensures OnPlan(o, w, t')
  {
    match t.at
    case Hosting =>
      hide Rising;
      assert t.plan.register[..0] == [];
    case Registering(_) => hide *; RegisteringStaysOnPlan(o, w, t, t');
    case Locking(_) => hide *; LockingStaysOnPlan(o, w, t, t');
    case Promoting(_) => hide *; PromotingStaysOnPlan(o, w, t, t');
  }

  /** What the other transactions have stays apart from what one that need not wait takes. */
  lemma AdvanceStaysApart(o: Orders, w: World, t: Txn, t': Txn, u: Txn)
    requires OnPlan(o, w, t) && OnPlan(o, w, u) && Apart(t, u) && Advances(w, t, t') && !Waits(w, t, u)
    ensures Apart(t', u) && Apart(u, t')
  {
    match t.at
    case Hosting =>
    case Registering(i) =>
      if i < |t.plan.register| {
        var iri := t.plan.register[i];
        assert iri in u.locked ==> iri in w.rows || iri in u.inserted;
      }
    case Locking(i) =>
      if i < |t.plan.lock| {
        var iri := t.plan.lock[i];
        assert iri in t.plan.lock && iri in t.plan.register;
        assert iri in w.rows || iri in t.inserted;
      }
    case Promoting(_) =>
  }

  lemma AdvanceKeepsInvariant(o: Orders, w: World, id: nat, t': Txn, w': World)
    requires Invariant(o, w) && id in w.txns && !Blocked(w, id)
    requires Advances(w, w.txns[id], t') && w' == w.(txns := w.txns[id := t'])
    ensures Invariant(o, w')
  {
    hide Advances, Waits, Apart, OnPlan, Counted;
    AdvanceStaysOnPlan(o, w, w.txns[id], t');
    SameCounts(w, w');
    forall other <- w'.txns ensures OnPlan(o, w', w'.txns[other]) {
      SameRows(o, w, w', w'.txns[other]);
    }
    forall other | other in w.txns && other != id ensures Apart(t', w.txns[other]) && Apart(w.txns[other], t') {
      AdvanceStaysApart(o, w, w.txns[id], t', w.txns[other]);
    }
  }

  lemma SameCounts(w: World, w': World)
    requires Counted(w) && w'.rows == w.rows && w'.births == w.births && w'.typed == w.typed
    requires w'.hosts == w.hosts && w'.founded == w.founded
    ensures Counted(w')
  {
  }

  lemma SameRows(o: Orders, w: World, w': World, t: Txn)
    requires OnPlan(o, w, t) && w'.rows == w.rows && w'.hosts == w.hosts
    ensures OnPlan(o, w', t)
  {
  }

  /** Committing one transaction publishes only rows the others do not have. */
  lemma CommitKeepsOthers(o: Orders, w: World, t: Txn, u: Txn, w': World)
    requires OnPlan(o, w, t) && OnPlan(o, w, u) && Apart(t, u)
    requires w'.rows == w.rows + (map iri | iri in t.inserted :: Unknown) + t.promoted
    requires w'.hosts == w.hosts + (if t.hosted then {t.plan.host} else {})
    ensures OnPlan(o, w', u)
  {
    forall iri ensures iri in w'.rows <==> iri in w.rows || iri in t.inserted {
      assert iri in t.promoted ==> iri in t.locked;
    }
    forall iri <- u.promoted ensures iri in w'.rows ==> w'.rows[iri] == Unknown {
      assert iri in u.locked && iri !in t.promoted;
    }
  }

  lemma HostIsNew(o: Orders, w: World, t: Txn)
    requires OnPlan(o, w, t)
    ensures t.hosted ==> t.plan.host !in w.hosts
  {
  }

  lemma CommitCountsHosts(o: Orders, w: World, t: Txn, w': World)
    requires HostsCounted(w) && (t.hosted ==> t.plan.host !in w.hosts)
    requires w'.hosts == w.hosts + (if t.hosted then {t.plan.host} else {})
    requires w'.founded == w.founded + (if t.hosted then multiset{t.plan.host} else multiset{})
    ensures HostsCounted(w')
  {
  }

  lemma CommitCountsRows(o: Orders, w: World, t: Txn, w': World)
    requires RowsCounted(w) && OnPlan(o, w, t)
    requires w'.rows == w.rows + (map iri | iri in t.inserted :: Unknown) + t.promoted
    requires w'.births == w.births + multiset(t.inserted) && w'.typed == w.typed + multiset(t.promoted.Keys)
    ensures RowsCounted(w')
  {
    forall iri
      ensures w'.births[iri] == if iri in w'.rows then 1 else 0
      ensures w'.typed[iri] == if iri in w'.rows && w'.rows[iri] != Unknown then 1 else 0
    {
      assert iri in t.promoted ==> iri in t.locked && (iri in w.rows || iri in t.inserted);
    }
  }

  lemma BeginKeepsInvariant(o: Orders, w: World, id: nat, plan: Plan, w': World)
    requires Invariant(o, w) && id !in w.txns && WellPlanned(o, plan)
    requires w' == w.(txns := w.txns[id := Txn(plan, Hosting, false, {}, {}, map[])])
    ensures Invariant(o, w')
  {
    hide OnPlan, Counted, Apart, WellPlanned;
    BeginIsOnPlan(o, w, w'.txns[id]);
    SameCounts(w, w');
    forall other <- w'.txns ensures OnPlan(o, w', w'.txns[other]) { SameRows(o, w, w', w'.txns[other]); }
    forall other <- w.txns ensures Apart(w'.txns[id], w.txns[other]) && Apart(w.txns[other], w'.txns[id]) {
      NothingIsApart(w'.txns[id], w.txns[other]);
    }
  }

  lemma CommitKeepsInvariant(o: Orders, w: World, id: nat, w': World)
    requires Invariant(o, w) && id in w.txns
    requires var t := w.txns[id];
             && w'.rows == w.rows + (map iri | iri in t.inserted :: Unknown) + t.promoted
             && w'.births == w.births + multiset(t.inserted) && w'.typed == w.typed + multiset(t.promoted.Keys)
             && w'.hosts == w.hosts + (if t.hosted then {t.plan.host} else {})
             && w'.founded == w.founded + (if t.hosted then multiset{t.plan.host} else multiset{})
             && w'.txns == w.txns - {id}
    ensures Invariant(o, w')
  {
    hide OnPlan, HostsCounted, RowsCounted, Apart;
    HostIsNew(o, w, w.txns[id]);
    CommitCountsHosts(o, w, w.txns[id], w');
    CommitCountsRows(o, w, w.txns[id], w');
    forall other <- w'.txns ensures OnPlan(o, w', w'.txns[other]) {
      CommitKeepsOthers(o, w, w.txns[id], w.txns[other], w');
    }
  }

  lemma NextKeepsInvariant(o: Orders, w: World, step: Step, w': World)
    requires Invariant(o, w) && Next(o, w, step, w')
    ensures Invariant(o, w')
  {
    hide Advances, Waits, Apart, OnPlan, Counted;
    match step
    case Begin(id, plan) => BeginKeepsInvariant(o, w, id, plan, w');
    case Advance(id) =>
      var t' :| Advances(w, w.txns[id], t') && w' == w.(txns := w.txns[id := t']);
      AdvanceKeepsInvariant(o, w, id, t', w');
    case Commit(id) => CommitKeepsInvariant(o, w, id, w');
    case Abort(_) =>
      SameCounts(w, w');
      forall other <- w'.txns ensures OnPlan(o, w', w'.txns[other]) { SameRows(o, w, w', w.txns[other]); }
  }

  lemma BeginIsOnPlan(o: Orders, w: World, t: Txn)
    requires WellPlanned(o, t.plan) && t == Txn(t.plan, Hosting, false, {}, {}, map[])
    ensures OnPlan(o, w, t)
  {
  }

  lemma NothingIsApart(t: Txn, u: Txn)
    requires t.inserted == {} && t.locked == {} && !t.hosted
    ensures Apart(t, u) && Apart(u, t)
  {
  }

  // ------------------------------------------------------------ no cycle of waits

  /** How far a transaction has come: its phase, then the rank of what it is about to take. */
  ghost function Rank(o: Orders, t: Txn): (int, int) {
    match t.at
    case Hosting => (0, 0)
    case Registering(i) => if i < |t.plan.register| then (1, o.registering(t.plan.register[i])) else (2, 0)
    case Locking(i) => if i < |t.plan.lock| then (3, o.locking(t.plan.lock[i])) else (4, 0)
    case Promoting(_) => (5, 0)
  }

  ghost predicate Below(p: (int, int), q: (int, int)) {
    p.0 < q.0 || (p.0 == q.0 && p.1 < q.1)
  }

  /** Along every wait the rank strictly rises. */
  lemma WaitsRise(o: Orders, w: World, id: nat, other: nat)
    requires Invariant(o, w) && id in w.txns && other in w.txns && Waits(w, w.txns[id], w.txns[other])
    ensures Below(Rank(o, w.txns[id]), Rank(o, w.txns[other]))
  {
    var t, u := w.txns[id], w.txns[other];
    assert OnPlan(o, w, t) && OnPlan(o, w, u);
    match t.at
    case Hosting =>
    case Registering(i) =>
      var iri := t.plan.register[i];
      if u.at.Registering? && u.at.i < |u.plan.register| {
        assert iri in u.plan.register[..u.at.i];
        var k :| 0 <= k < u.at.i && u.plan.register[k] == iri;
      }
    case Locking(i) =>
      var iri := t.plan.lock[i];
      if u.at.Locking? && u.at.i < |u.plan.lock| {
        assert iri in u.plan.lock[..u.at.i];
        var k :| 0 <= k < u.at.i && u.plan.lock[k] == iri;
      }
    case Promoting(_) =>
  }

  /** Each transaction of the chain waits for the next. */
  ghost predicate WaitChain(w: World, chain: seq<nat>) {
    && (forall id <- chain :: id in w.txns)
    && (forall i | 0 <= i < |chain| - 1 :: Waits(w, w.txns[chain[i]], w.txns[chain[i + 1]]))
  }

  lemma {:induction false} ChainRises(o: Orders, w: World, chain: seq<nat>, n: nat)
    requires Invariant(o, w) && WaitChain(w, chain) && 0 < n < |chain|
    ensures chain[0] in chain && chain[n] in chain
    ensures Below(Rank(o, w.txns[chain[0]]), Rank(o, w.txns[chain[n]]))
  {
    hide Invariant, Waits, Rank;
    WaitsRise(o, w, chain[n - 1], chain[n]);
    if n > 1 { ChainRises(o, w, chain, n - 1); }
  }

  /** No transaction ever waits, directly or through others, for itself. */
  lemma NoDeadlock(o: Orders, w: World, chain: seq<nat>)
    requires Invariant(o, w) && WaitChain(w, chain) && |chain| > 1
    ensures chain[0] != chain[|chain| - 1]
  {
    hide Invariant, Waits, Rank;
    ChainRises(o, w, chain, |chain| - 1);
  }

  lemma {:induction false} Foremost(o: Orders, w: World, ids: set<nat>) returns (id: nat)
    requires ids != {} && forall t <- ids :: t in w.txns
    ensures id in ids && forall t <- ids :: !Below(Rank(o, w.txns[id]), Rank(o, w.txns[t]))
    decreases |ids|
  {
    hide Rank;
    id :| id in ids;
    var rest := ids - {id};
    if rest != {} {
      var best := Foremost(o, w, rest);
      var first := id;
      if Below(Rank(o, w.txns[first]), Rank(o, w.txns[best])) { id := best; }
      forall t <- ids ensures !Below(Rank(o, w.txns[id]), Rank(o, w.txns[t])) {
        if t != first { assert t in rest; }
      }
    } else {
      forall t <- ids ensures t == id { assert t !in rest; }
    }
  }

  /** As long as any transaction is running, one of them need not wait. */
  lemma SomeoneProceeds(o: Orders, w: World) returns (id: nat)
    requires Invariant(o, w) && w.txns != map[]
    ensures id in w.txns && !Blocked(w, id)
  {
    hide Invariant, Waits, Rank;
    assert w.txns.Keys != {} by { var some :| some in w.txns; }
    id := Foremost(o, w, w.txns.Keys);
    if Blocked(w, id) {
      var u :| u in w.txns && u != id && Waits(w, w.txns[id], w.txns[u]);
      WaitsRise(o, w, id, u);
      assert false;
    }
  }

  // ------------------------------------------------------------ whole runs

  ghost predicate IsRun(o: Orders, worlds: seq<World>, steps: seq<Step>) {
    |worlds| == |steps| + 1 && forall i | 0 <= i < |steps| :: Next(o, worlds[i], steps[i], worlds[i + 1])
  }

  lemma {:induction false} RunKeepsInvariant(o: Orders, worlds: seq<World>, steps: seq<Step>, i: nat)
    requires IsRun(o, worlds, steps) && Invariant(o, worlds[0]) && i < |worlds|
    ensures Invariant(o, worlds[i])
  {
    hide Invariant, Next;
    if i > 0 {
      RunKeepsInvariant(o, worlds, steps, i - 1);
      NextKeepsInvariant(o, worlds[i - 1], steps[i - 1], worlds[i]);
    }
  }

  lemma NextKeepsKinds(o: Orders, w: World, step: Step, w': World, iri: Iri)
    requires Invariant(o, w) && Next(o, w, step, w') && iri in w.rows
    ensures iri in w'.rows && (w.rows[iri] != Unknown ==> w'.rows[iri] == w.rows[iri])
  {
    hide Advances, Waits, Apart, Reached;
    if step.Commit? {
      assert OnPlan(o, w, w.txns[step.id]);
      assert iri !in w.txns[step.id].inserted;
    }
  }

  /** In every run a registered IRI stays registered, and a kind that is no longer unknown never changes. */
  lemma {:induction false} KindsSettle(o: Orders, worlds: seq<World>, steps: seq<Step>, i: nat, j: nat, iri: Iri)
    requires IsRun(o, worlds, steps) && Invariant(o, worlds[0]) && i <= j < |worlds| && iri in worlds[i].rows
    ensures iri in worlds[j].rows && (worlds[i].rows[iri] != Unknown ==> worlds[j].rows[iri] == worlds[i].rows[iri])
  {
    hide Invariant, Next;
    if i < j {
      KindsSettle(o, worlds, steps, i, j - 1, iri);
      RunKeepsInvariant(o, worlds, steps, j - 1);
      NextKeepsKinds(o, worlds[j - 1], steps[j - 1], worlds[j], iri);
    }
  }

  /** At every point of every run: one row per host and per registered IRI, and one typed row per settled kind. */
  lemma RowsAreInsertedOnce(o: Orders, worlds: seq<World>, steps: seq<Step>, i: nat, iri: Iri, host: string)
    requires IsRun(o, worlds, steps) && Invariant(o, worlds[0]) && i < |worlds|
    ensures worlds[i].births[iri] <= 1 && worlds[i].typed[iri] <= 1 && worlds[i].founded[host] <= 1
    ensures worlds[i].founded[host] == 1 <==> host in worlds[i].hosts
    ensures worlds[i].births[iri] == 1 <==> iri in worlds[i].rows
    ensures worlds[i].typed[iri] == 1 <==> iri in worlds[i].rows && worlds[i].rows[iri] != Unknown
  {
    RunKeepsInvariant(o, worlds, steps, i);
    hide Next, OnPlan, Apart;
  }

  // ------------------------------------------------------------ what a transaction leaves

  /** What has been promoted so far reads as its kind. */
  ghost predicate ReadsAsPlanned(w: World, t: Txn) {
    t.at.Promoting? ==>
      && t.at.i <= |t.plan.promote|
      && (forall k | 0 <= k < t.at.i ::
            t.plan.promote[k].iri in t.locked && KindSeen(w, t, t.plan.promote[k].iri) == t.plan.promote[k].kind)
  }

  /** Nothing else is promoted. */
  ghost predicate PromotesThePlanned(t: Txn) {
    t.at.Promoting? ==> forall iri <- t.promoted :: exists p <- t.plan.promote :: p.iri == iri
  }

  ghost predicate PromotesAsPlanned(w: World, t: Txn) {
    && ReadsAsPlanned(w, t) && PromotesThePlanned(t)
    && (t.at.Promoting? ==> forall iri <- t.plan.register :: iri in w.rows || iri in t.inserted)
    && (!t.at.Hosting? ==> t.hosted || t.plan.host in w.hosts)
  }

  ghost predicate AllPromoteAsPlanned(w: World) {
    forall id <- w.txns :: PromotesAsPlanned(w, w.txns[id])
  }

  lemma PromotionReadsAsPlanned(o: Orders, w: World, t: Txn, t': Txn)
    requires OnPlan(o, w, t) && ReadsAsPlanned(w, t) && Advances(w, t, t') && t.at.Promoting?
    ensures ReadsAsPlanned(w, t')
  {
    hide Rising;
    var p := t.plan.promote[t.at.i];
    assert p in t.plan.promote && p.iri in t.locked;
    hide OnPlan, WellPlanned;
  }

  lemma PromotionPromotesThePlanned(w: World, t: Txn, t': Txn)
    requires PromotesThePlanned(t) && Advances(w, t, t') && t.at.Promoting?
    ensures PromotesThePlanned(t')
  {
    hide KindSeen;
    assert t.plan.promote[t.at.i] in t.plan.promote;
  }

  lemma AdvancePromotesAsPlanned(o: Orders, w: World, t: Txn, t': Txn)
    requires OnPlan(o, w, t) && PromotesAsPlanned(w, t) && Advances(w, t, t')
    ensures PromotesAsPlanned(w, t')
  {
    if t.at.Promoting? {
      PromotionReadsAsPlanned(o, w, t, t');
      PromotionPromotesThePlanned(w, t, t');
      hide OnPlan, ReadsAsPlanned, PromotesThePlanned, KindSeen;
    } else {
      hide Rising, KindSeen;
    }
  }

  lemma CommitLeavesOthersAsPlanned(o: Orders, w: World, t: Txn, u: Txn, w': World)
    requires OnPlan(o, w, t) && OnPlan(o, w, u) && Apart(t, u) && PromotesAsPlanned(w, u)
    requires w'.rows == w.rows + (map iri | iri in t.inserted :: Unknown) + t.promoted && w.hosts <= w'.hosts
    ensures PromotesAsPlanned(w', u)
  {
    hide Rising;
    if u.at.Promoting? {
      forall k | 0 <= k < u.at.i
        ensures KindSeen(w', u, u.plan.promote[k].iri) == u.plan.promote[k].kind
      {
        var iri := u.plan.promote[k].iri;
        assert iri in u.locked && iri !in t.promoted && iri !in t.inserted;
      }
    }
  }

  lemma NextPromotesAsPlanned(o: Orders, w: World, step: Step, w': World)
    requires Invariant(o, w) && AllPromoteAsPlanned(w) && Next(o, w, step, w')
    ensures AllPromoteAsPlanned(w')
  {
    hide Advances, Waits, Apart, OnPlan, Counted, PromotesAsPlanned;
    forall id <- w'.txns ensures PromotesAsPlanned(w', w'.txns[id]) {
      if id !in w.txns {
        NothingPromoted(w', w'.txns[id]);
      } else if step == Advance(id) {
        var t' :| Advances(w, w.txns[id], t') && w' == w.(txns := w.txns[id := t']);
        AdvancePromotesAsPlanned(o, w, w.txns[id], t');
        SamePromotions(w, w', t');
      } else if step.Commit? {
        CommitLeavesOthersAsPlanned(o, w, w.txns[step.id], w.txns[id], w');
      } else {
        SamePromotions(w, w', w.txns[id]);
      }
    }
  }

  lemma NothingPromoted(w: World, t: Txn)
    requires t.at == Hosting
    ensures PromotesAsPlanned(w, t)
  {
  }

  lemma SamePromotions(w: World, w': World, t: Txn)
    requires PromotesAsPlanned(w, t) && w'.rows == w.rows && w'.hosts == w.hosts
    ensures PromotesAsPlanned(w', t)
  {
  }

  lemma {:induction false} RunPromotesAsPlanned(o: Orders, worlds: seq<World>, steps: seq<Step>, i: nat)
    requires IsRun(o, worlds, steps) && Invariant(o, worlds[0]) && worlds[0].txns == map[] && i < |worlds|
    ensures AllPromoteAsPlanned(worlds[i])
  {
    hide Invariant, Next, PromotesAsPlanned;
    if i > 0 {
      RunPromotesAsPlanned(o, worlds, steps, i - 1);
      RunKeepsInvariant(o, worlds, steps, i - 1);
      NextPromotesAsPlanned(o, worlds[i - 1], steps[i - 1], worlds[i]);
    }
  }

  /**
   * A transaction that commits leaves what it set out to: its host, a row for every IRI it registered, and
   * the planned kind for every IRI it promoted.  The other rows are what they were.
   */
  lemma CommitsAsPlanned(o: Orders, worlds: seq<World>, steps: seq<Step>, i: nat)
    requires IsRun(o, worlds, steps) && Invariant(o, worlds[0]) && worlds[0].txns == map[]
    requires i < |steps| && steps[i].Commit?
    ensures steps[i].id in worlds[i].txns
    ensures var before, after, plan := worlds[i], worlds[i + 1], worlds[i].txns[steps[i].id].plan;
            && after.hosts == before.hosts + {plan.host}
            && (forall iri :: iri in after.rows <==> iri in before.rows || iri in plan.register)
            && (forall p <- plan.promote :: p.iri in after.rows && after.rows[p.iri] == p.kind)
            && (forall iri <- after.rows | forall p <- plan.promote :: p.iri != iri ::
                  after.rows[iri] == if iri in before.rows then before.rows[iri] else Unknown)
  {
    hide Rising, Waits, Apart;
    RunKeepsInvariant(o, worlds, steps, i);
    RunPromotesAsPlanned(o, worlds, steps, i);
    assert Next(o, worlds[i], steps[i], worlds[i + 1]);
    hide IsRun, Advances, Counted;
    CommitLeavesPlan(o, worlds[i], steps[i].id, worlds[i + 1]);
  }

  lemma CommitLeavesPlan(o: Orders, w: World, id: nat, w': World)
    requires Next(o, w, Commit(id), w') && id in w.txns && OnPlan(o, w, w.txns[id]) && PromotesAsPlanned(w, w.txns[id])
    ensures var plan := w.txns[id].plan;
            && w'.hosts == w.hosts + {plan.host}
            && (forall iri :: iri in w'.rows <==> iri in w.rows || iri in plan.register)
            && (forall p <- plan.promote :: p.iri in w'.rows && w'.rows[p.iri] == p.kind)
            && (forall iri <- w'.rows | forall p <- plan.promote :: p.iri != iri ::
                  w'.rows[iri] == if iri in w.rows then w.rows[iri] else Unknown)
  {
    hide Rising, Waits, Apart, Advances;
    var t := w.txns[id];
    forall iri ensures iri in w'.rows <==> iri in w.rows || iri in t.plan.register {
      if iri in t.promoted { assert iri in t.locked; }
    }
    forall p <- t.plan.promote ensures p.iri in w'.rows && w'.rows[p.iri] == p.kind {
      var k :| 0 <= k < |t.plan.promote| && t.plan.promote[k] == p;
      assert p.iri in t.locked && KindSeen(w, t, p.iri) == p.kind;
      assert p.kind != Unknown;
    }
  }

  /** The transaction is done with its statements, or finds what it would promote to be of another kind. */
  ghost predicate IsAtEnd(w: World, t: Txn) {
    && t.at.Promoting?
    && (t.at.i >= |t.plan.promote|
        || KindSeen(w, t, t.plan.promote[t.at.i].iri) !in {Unknown, t.plan.promote[t.at.i].kind})
  }

  /** How many statements a transaction has yet to run. */
  ghost function Remaining(t: Txn): int {
    var promote, lock, register := |t.plan.promote|, |t.plan.lock|, |t.plan.register|;
    match t.at
    case Hosting => promote + 1 + lock + 1 + register + 1
    case Registering(i) => promote + 1 + lock + 1 + register - i
    case Locking(i) => promote + 1 + lock - i
    case Promoting(i) => promote - i
  }

  /**
   * A transaction that need not wait runs its next statement, and so comes closer to its end, unless it is
   * there or must give up because of the kind of a resource.
   */
  lemma UnblockedGoesOn(o: Orders, w: World, id: nat) returns (w': World)
    requires Invariant(o, w) && id in w.txns && !Blocked(w, id) && !IsAtEnd(w, w.txns[id])
    ensures Next(o, w, Advance(id), w') && id in w'.txns && w'.txns[id].plan == w.txns[id].plan
    ensures 0 <= Remaining(w'.txns[id]) < Remaining(w.txns[id])
  {
    hide Rising, Blocked, Waits, Counted, Apart;
    var t := w.txns[id];
    assert OnPlan(o, w, t);
    var t' := NextOf(w, t);
    w' := w.(txns := w.txns[id := t']);
    assert Advances(w, t, t');
  }

  /** The transaction after its next statement. */
  ghost function NextOf(w: World, t: Txn): Txn
    requires !IsAtEnd(w, t) && (t.at.Promoting? ==> 0 <= t.at.i)
  {
    match t.at
    case Hosting => t.(at := Registering(0), hosted := t.plan.host !in w.hosts)
    case Registering(i) =>
      if i < |t.plan.register| then
        t.(at := Registering(i + 1),
           inserted := t.inserted + if t.plan.register[i] in w.rows then {} else {t.plan.register[i]})
      else t.(at := Locking(0))
    case Locking(i) =>
      if i < |t.plan.lock| then t.(at := Locking(i + 1), locked := t.locked + {t.plan.lock[i]})
      else t.(at := Promoting(0))
    case Promoting(i) =>
      var p := t.plan.promote[i];
      t.(at := Promoting(i + 1),
         promoted := if KindSeen(w, t, p.iri) == Unknown then t.promoted[p.iri := p.kind] else t.promoted)
  }

  lemma DoneCommits(o: Orders, w: World, id: nat) returns (w': World)
    requires id in w.txns && w.txns[id].at == Promoting(|w.txns[id].plan.promote|)
    ensures Next(o, w, Commit(id), w') && id !in w'.txns
  {
    var t := w.txns[id];
    w' := World(w.hosts + (if t.hosted then {t.plan.host} else {}),
                w.rows + (map iri | iri in t.inserted :: Unknown) + t.promoted,
                w.births + multiset(t.inserted), w.typed + multiset(t.promoted.Keys),
                w.founded + (if t.hosted then multiset{t.plan.host} else multiset{}), w.txns - {id});
  }

  // ------------------------------------------------------------ the plan of one activity

  /** The IRIs of an accepted activity: its own, its actor's, its object's, and those it addresses. */
  datatype Accepted = Accepted(host: string, actor: Iri, content: Iri, activity: Iri, addressed: set<Iri>)

  /** Every IRI is registered in order, the three that are promoted are locked in order, then promoted. */
  ghost predicate IsPlanOf(o: Orders, accepted: Accepted, plan: Plan) {
    && plan.host == accepted.host
    && Rising(o.registering, plan.register) && Rising(o.locking, plan.lock)
    && (forall iri :: iri in plan.register <==>
          iri in {accepted.actor, accepted.content, accepted.activity} + accepted.addressed)
    && (forall iri :: iri in plan.lock <==> iri in {accepted.actor, accepted.content, accepted.activity})
    && plan.promote ==
         [Promotion(accepted.actor, Actor), Promotion(accepted.content, Object), Promotion(accepted.activity, Activity)]
  }

  lemma PlansAreWellMade(o: Orders, accepted: Accepted, plan: Plan)
    requires IsPlanOf(o, accepted, plan)
    ensures WellPlanned(o, plan)
  {
    hide Rising;
  }
}
