/** Preparers of embedded databases: those that share a client run one after another, in call order. */
module PglitePreparation {
  import opened Wrappers

  datatype Outcome = Ready | Refused
  datatype Status = Waiting | Running | Settled(outcome: Outcome)

  /** A call, and the call of the same client it waits for. */
  datatype Call = Call(client: int, previous: Option<nat>, status: Status)

  /** The per-client tails: the promise each client's next call has to wait for. */
  class Preparations {
    var calls: seq<Call>
    var tails: map<int, nat>

    ghost predicate Valid()
      reads this
    {
      Queued(calls, tails)
    }

    constructor ()
      ensures Valid() && calls == [] && tails == map[]
    {
      calls, tails := [], map[];
    }

    /** A call joins the queue of its client, whatever became of the calls before. */
    method Prepare(client: int, aborted: bool) returns (call: Option<nat>)
      requires Valid()
      modifies this
      ensures Valid()
      ensures aborted ==> call == None && calls == old(calls) && tails == old(tails)
      ensures !aborted ==>
                && call == Some(|old(calls)|)
                && calls == old(calls)
                     + [Call(client, if client in old(tails) then Some(old(tails)[client]) else None, Waiting)]
                && tails == old(tails)[client := |old(calls)|]
    {
      if aborted { return None; }
      var previous := if client in tails then Some(tails[client]) else None;
      call := Some(|calls|);
      JoiningKeepsQueue(calls, tails, client);
      tails := tails[client := |calls|];
      calls := calls + [Call(client, previous, Waiting)];
    }

    /** The call before has settled, one way or the other: this one runs. */
    method Begin(i: nat)
      requires Valid() && i < |calls| && calls[i].status == Waiting && MayBegin(calls, i)
      modifies this`calls
      ensures Valid() && calls == old(calls)[i := old(calls)[i].(status := Running)]
    {
      BeginningKeepsQueue(calls, tails, i);
      calls := calls[i := calls[i].(status := Running)];
    }

    method Settle(i: nat, outcome: Outcome)
      requires Valid() && i < |calls| && calls[i].status == Running
      modifies this`calls
      ensures Valid() && calls == old(calls)[i := old(calls)[i].(status := Settled(outcome))]
    {
      SettlingKeepsQueue(calls, tails, i, outcome);
      calls := calls[i := calls[i].(status := Settled(outcome))];
    }
  }

  ghost predicate Previous(calls: seq<Call>, i: nat, p: nat) {
    && p < i < |calls| && calls[p].client == calls[i].client
    && forall k | p < k < i :: calls[k].client != calls[i].client
  }

  /** Whether the promise a call was chained to is fulfilled; the first call of a client waits for none. */
  ghost predicate MayBegin(calls: seq<Call>, i: nat) {
    i < |calls| && match calls[i].previous case None => true case Some(p) => p < |calls| && calls[p].status.Settled?
  }

  /** Each call is chained to the latest earlier one of its client, and runs only after that one settled. */
  ghost predicate Queued(calls: seq<Call>, tails: map<int, nat>) {
    && (forall client <- tails ::
          tails[client] < |calls| && calls[tails[client]].client == client
          && forall k | tails[client] < k < |calls| :: calls[k].client != client)
    && (forall i | 0 <= i < |calls| :: calls[i].client in tails && Chained(calls, i))
  }

  ghost predicate Chained(calls: seq<Call>, i: nat)
    requires i < |calls|
  {
    && (match calls[i].previous
        case None => forall k | 0 <= k < i :: calls[k].client != calls[i].client
        case Some(p) => Previous(calls, i, p))
    && (calls[i].status != Waiting ==> MayBegin(calls, i))
  }

  lemma JoiningKeepsQueue(calls: seq<Call>, tails: map<int, nat>, client: int)
    requires Queued(calls, tails)
    ensures Queued(calls + [Call(client, if client in tails then Some(tails[client]) else None, Waiting)],
                   tails[client := |calls|])
  {
    var more := calls + [Call(client, if client in tails then Some(tails[client]) else None, Waiting)];
    forall i | 0 <= i < |more| ensures Chained(more, i) {
      if i < |calls| { assert Chained(calls, i) && more[i] == calls[i]; }
    }
  }

  /** Only statuses change, and what has settled stays settled. */
  ghost predicate GoesOn(calls: seq<Call>, after: seq<Call>) {
    && |after| == |calls|
    && forall k | 0 <= k < |calls| ::
         && after[k].client == calls[k].client && after[k].previous == calls[k].previous
         && (calls[k].status.Settled? ==> after[k].status == calls[k].status)
  }

  lemma ChainGoesOn(calls: seq<Call>, after: seq<Call>, i: nat)
    requires GoesOn(calls, after) && i < |calls| && Chained(calls, i)
    requires after[i].status != Waiting ==> MayBegin(calls, i)
    ensures Chained(after, i)
  {
  }

  lemma QueueGoesOn(calls: seq<Call>, after: seq<Call>, tails: map<int, nat>)
    requires Queued(calls, tails) && GoesOn(calls, after)
    requires forall i | 0 <= i < |calls| && after[i].status != Waiting ::
               calls[i].status != Waiting || MayBegin(calls, i)
    ensures Queued(after, tails)
  {
    hide Chained, MayBegin;
    forall i | 0 <= i < |after| ensures Chained(after, i) {
      assert Chained(calls, i);
      BegunMayBegin(calls, i);
      ChainGoesOn(calls, after, i);
    }
  }

  lemma BegunMayBegin(calls: seq<Call>, i: nat)
    requires i < |calls| && Chained(calls, i)
    ensures calls[i].status != Waiting ==> MayBegin(calls, i)
  {
  }

  lemma BeginningKeepsQueue(calls: seq<Call>, tails: map<int, nat>, i: nat)
    requires Queued(calls, tails) && i < |calls| && calls[i].status == Waiting && MayBegin(calls, i)
    ensures Queued(calls[i := calls[i].(status := Running)], tails)
  {
    hide Queued, MayBegin;
    QueueGoesOn(calls, calls[i := calls[i].(status := Running)], tails);
  }

  lemma SettlingKeepsQueue(calls: seq<Call>, tails: map<int, nat>, i: nat, outcome: Outcome)
    requires Queued(calls, tails) && i < |calls| && calls[i].status == Running
    ensures Queued(calls[i := calls[i].(status := Settled(outcome))], tails)
  {
    hide Queued, MayBegin;
    QueueGoesOn(calls, calls[i := calls[i].(status := Settled(outcome))], tails);
  }

  /** Calls that share a client run in call order: a later one has not begun before every earlier one settled. */
  lemma {:induction false} CallsRunInOrder(calls: seq<Call>, tails: map<int, nat>, i: nat, j: nat)
    requires Queued(calls, tails) && i < j < |calls| && calls[i].client == calls[j].client && calls[j].status != Waiting
    ensures calls[i].status.Settled?
    decreases j
  {
    assert Chained(calls, j);
    var p := calls[j].previous.value;
    if p != i { CallsRunInOrder(calls, tails, i, p); }
  }

  /** So no two of them run at once, even when earlier ones failed. */
  lemma NoOverlap(calls: seq<Call>, tails: map<int, nat>, i: nat, j: nat)
    requires Queued(calls, tails) && i < |calls| && j < |calls|
    requires calls[i].client == calls[j].client && calls[i].status == Running && calls[j].status == Running
    ensures i == j
  {
    if i < j { CallsRunInOrder(calls, tails, i, j); }
    if j < i { CallsRunInOrder(calls, tails, j, i); }
  }

  /** And none waits for ever: while a client has calls that have not settled, one of them runs or may begin. */
  lemma {:induction false} SomeCallProceeds(calls: seq<Call>, tails: map<int, nat>, i: nat) returns (next: nat)
    requires Queued(calls, tails) && i < |calls| && !calls[i].status.Settled?
    ensures next <= i && calls[next].client == calls[i].client && !calls[next].status.Settled?
    ensures calls[next].status == Running || MayBegin(calls, next)
    decreases i
  {
    assert Chained(calls, i);
    if calls[i].status == Running || MayBegin(calls, i) {
      next := i;
    } else {
      next := SomeCallProceeds(calls, tails, calls[i].previous.value);
    }
  }
}
