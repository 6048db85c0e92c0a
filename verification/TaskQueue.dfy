/** The bounded queue of key prewarming messages, and its single listener, which parks while the queue is empty. */
module TaskQueue {

  type Message = int

  /** Where the listener waits: for a wake, for its handler, or not at all. */
  datatype Listener = Idle | Parked(woken: bool) | Handling(message: Message) | Stopped

  /**
   * The queue's fields and, beside them, what it has been through: the messages accepted, the ones
   * taken by the listener, the ones discarded when it stopped, and the number refused.
   */
  datatype Queue = Queue(
    capacity: nat, messages: seq<Message>, dropped: nat, closed: bool, listening: bool, listener: Listener,
      aborted: bool,
    accepted: seq<Message>, taken: seq<Message>, discarded: seq<Message>, refused: nat)
  {
    /** Messages whose handler has settled. */
    function Handled(): int {
      |taken| - (if listener.Handling? then 1 else 0)
    }

    ghost predicate Valid() {
      && accepted == taken + messages + discarded
      && dropped == refused + |discarded|
      && |messages| <= capacity
      && (discarded != [] ==> closed)
      && (closed <==> listener.Stopped?) && (closed ==> messages == [])
      && (listening <==> !listener.Idle?)
      && (listener == Parked(false) ==> messages == [] && !aborted)
      && (listener.Handling? ==> taken != [] && taken[|taken| - 1] == listener.message)
    }
  }

  // ------------------------------------------------------------ the effects of one uninterrupted stretch of code

  function Woken(listener: Listener): Listener {
    if listener.Parked? then Parked(true) else listener
  }

  /** A batch is taken whole, or refused whole. */
  function Enqueued(q: Queue, batch: seq<Message>): Queue {
    if q.closed || |q.messages| + |batch| > q.capacity then
      q.(dropped := q.dropped + |batch|, refused := q.refused + |batch|)
    else
      q.(messages := q.messages + batch, accepted := q.accepted + batch, listener := Woken(q.listener))
  }

  /** The loop from its head to the next wait. */
  function Looped(q: Queue): Queue {
    if q.aborted then
      q.(closed := true, dropped := q.dropped + |q.messages|, discarded := q.discarded + q.messages, messages := [],
         listener := Stopped)
    else if q.messages == [] then q.(listener := Parked(false))
    else q.(messages := q.messages[1..], taken := q.taken + [q.messages[0]], listener := Handling(q.messages[0]))
  }

  /** Whether the wait of the listener is over; a handler may settle at any time. */
  predicate Resumable(q: Queue) {
    q.listener == Parked(true) || q.listener.Handling?
  }

  function Aborted(q: Queue): Queue {
    q.(aborted := true, listener := Woken(q.listener))
  }

  function New(capacity: nat): Queue {
    Queue(capacity, [], 0, false, false, Idle, false, [], [], [], 0)
  }

  // ------------------------------------------------------------ the class

  class KeyGenerationQueue {
    const capacity: nat
    var messages: seq<Message>
    var dropped: nat
    var closed: bool
    var listening: bool
    var listener: Listener
    var aborted: bool
    ghost var accepted: seq<Message>
    ghost var taken: seq<Message>
    ghost var discarded: seq<Message>
    ghost var refused: nat

    ghost function Now(): Queue
      reads this
    {
      Queue(capacity, messages, dropped, closed, listening, listener, aborted, accepted, taken, discarded, refused)
    }

    constructor (capacity: nat)
      requires capacity >= 1
      ensures Now() == New(capacity) && Now().Valid()
    {
      this.capacity := capacity;
      messages, dropped, closed, listening, listener, aborted := [], 0, false, false, Idle, false;
      accepted, taken, discarded, refused := [], [], [], 0;
    }

    /** Accepts a batch, or drops it when there is no room for all of it; delayed messages are an error. */
    method EnqueueMany(batch: seq<Message>, delayed: bool) returns (ok: bool)
      requires Now().Valid()
      modifies this
      ensures ok == !delayed && Now().Valid()
      ensures Now() == if delayed then old(Now()) else Enqueued(old(Now()), batch)
    {
      EnqueueKeeps(Now(), batch);
      if delayed { return false; }
      if closed || |messages| + |batch| > capacity {
        dropped := dropped + |batch|;
        refused := refused + |batch|;
        return true;
      }
      messages := messages + batch;
      accepted := accepted + batch;
      if listener.Parked? { listener := Parked(true); }
      return true;
    }

    /** The listener's loop up to its next wait. */
    method Loop()
      requires Now().Valid() && listening && !closed && listener != Parked(false)
      modifies this
      ensures Now().Valid() && Now() == Looped(old(Now()))
    {
      LoopKeeps(Now());
      if aborted {
        closed := true;
        dropped := dropped + |messages|;
        discarded := discarded + messages;
        messages := [];
        listener := Stopped;
      } else if messages == [] {
        listener := Parked(false);
      } else {
        var message := messages[0];
        messages := messages[1..];
        taken := taken + [message];
        listener := Handling(message);
      }
    }

    /** Starts the only listener the queue will have. */
    method Listen() returns (started: bool)
      requires Now().Valid()
      modifies this
      ensures Now().Valid()
      ensures started <==> !old(listening) && !old(closed)
      ensures Now() == if started then Looped(old(Now()).(listening := true)) else old(Now())
    {
      if listening || closed { return false; }
      listening := true;
      listener := Parked(true);
      Loop();
      return true;
    }

    /** The worker's owner stops it. */
    method Abort()
      requires Now().Valid()
      modifies this`aborted, this`listener
      ensures Now().Valid() && Now() == Aborted(old(Now()))
    {
      aborted := true;
      if listener.Parked? { listener := Parked(true); }
    }
  }

  lemma EnqueueKeeps(q: Queue, batch: seq<Message>)
    requires q.Valid()
    ensures Enqueued(q, batch).Valid()
  {
    if !q.closed {
      assert q.discarded == [];
      assert q.taken + q.messages + batch + [] == q.taken + (q.messages + batch) + [];
    }
  }

  lemma LoopKeeps(q: Queue)
    requires q.Valid() && q.listening && !q.closed && q.listener != Parked(false)
    ensures Looped(q).Valid()
  {
    if q.messages != [] && !q.aborted {
      assert q.taken + [q.messages[0]] + q.messages[1..] + [] == q.taken + q.messages + [];
    }
  }

  /** A batch is taken, behind what waits already, exactly when the queue is open and has room for all of it. */
  lemma EnqueueInWords(q: Queue, batch: seq<Message>)
    ensures var taken := !q.closed && |q.messages| + |batch| <= q.capacity;
            var after := Enqueued(q, batch);
            && after.messages == (if taken then q.messages + batch else q.messages)
            && after.dropped == q.dropped + (if taken then 0 else |batch|)
            && after.closed == q.closed && after.listening == q.listening && after.aborted == q.aborted
            && (taken && q.listener.Parked? ==> after.listener == Parked(true))
            && (!(taken && q.listener.Parked?) ==> after.listener == q.listener)
  {
  }

  /** At its head the loop stops on the abort, or else handles the oldest message, or else parks. */
  lemma LoopInWords(q: Queue)
    ensures var after := Looped(q);
            && after.aborted == q.aborted && after.listening == q.listening
            && (q.aborted ==>
                  && after.closed && after.messages == [] && after.listener == Stopped
                  && after.dropped == q.dropped + |q.messages|)
            && (!q.aborted ==> after.closed == q.closed && after.dropped == q.dropped)
            && (!q.aborted && q.messages != [] ==>
                  q.messages == [after.listener.message] + after.messages && after.listener.Handling?)
            && (!q.aborted && q.messages == [] ==> after.messages == [] && after.listener == Parked(false))
  {
  }

  // ------------------------------------------------------------ every interleaving

  /** What may happen next, at one of the waits. */
  datatype Event = Enqueue(batch: seq<Message>) | Start | Resume | Abort

  predicate Possible(q: Queue, event: Event) {
    match event
    case Enqueue(_) => true
    case Start => !q.listening && !q.closed
    case Resume => Resumable(q)
    case Abort => true
  }

  function After(q: Queue, event: Event): Queue {
    match event
    case Enqueue(batch) => Enqueued(q, batch)
    case Start => Looped(q.(listening := true))
    case Resume => Looped(q)
    case Abort => Aborted(q)
  }

  lemma AfterKeeps(q: Queue, event: Event)
    requires q.Valid() && Possible(q, event)
    ensures After(q, event).Valid()
  {
    match event
    case Enqueue(batch) => EnqueueKeeps(q, batch);
    case Start => LoopKeeps(q.(listening := true, listener := Parked(true)));
    case Resume => LoopKeeps(q);
    case Abort =>
  }

  ghost predicate IsRun(states: seq<Queue>, events: seq<Event>) {
    && |states| == |events| + 1 && states[0] == New(states[0].capacity)
    && forall i | 0 <= i < |events| :: Possible(states[i], events[i]) && states[i + 1] == After(states[i], events[i])
  }

  lemma {:induction false} RunKeepsValid(states: seq<Queue>, events: seq<Event>, i: nat)
    requires IsRun(states, events) && i < |states|
    ensures states[i].Valid()
  {
    hide After;
    if i > 0 {
      RunKeepsValid(states, events, i - 1);
      AfterKeeps(states[i - 1], events[i - 1]);
    }
  }

  /** In every reachable state no message is lost track of, and the count of dropped ones is right. */
  lemma MessagesAreConserved(states: seq<Queue>, events: seq<Event>, i: nat)
    requires IsRun(states, events) && i < |states|
    ensures var q := states[i];
            && |q.accepted| == q.Handled() + (if q.listener.Handling? then 1 else 0) + |q.messages| + |q.discarded|
            && q.dropped == q.refused + |q.discarded| && q.Handled() >= 0
            && |q.messages| <= q.capacity
  {
    RunKeepsValid(states, events, i);
  }

  /** Messages are handled in the order they were accepted. */
  lemma HandlingFollowsAcceptance(states: seq<Queue>, events: seq<Event>, i: nat)
    requires IsRun(states, events) && i < |states|
    ensures states[i].taken <= states[i].accepted
  {
    RunKeepsValid(states, events, i);
  }

  /**
   * The listener is parked without a wake only while there is nothing to do; then any message or
   * the abort wakes it.
   */
  lemma NoWakeIsLost(states: seq<Queue>, events: seq<Event>, i: nat, batch: seq<Message>)
    requires IsRun(states, events) && i < |states| && states[i].listener.Parked? && !Resumable(states[i])
    ensures states[i].messages == [] && !states[i].aborted
    ensures |batch| <= states[i].capacity ==>
              Resumable(Enqueued(states[i], batch)) && Enqueued(states[i], batch).messages == batch
    ensures Resumable(Aborted(states[i]))
  {
    RunKeepsValid(states, events, i);
  }

  /** After the listener stops, nothing is queued any more, and everything sent is dropped. */
  lemma StoppedDropsAll(states: seq<Queue>, events: seq<Event>, i: nat, batch: seq<Message>)
    requires IsRun(states, events) && i < |states| && states[i].closed
    ensures states[i].messages == []
            && Enqueued(states[i], batch)
                 == states[i].(dropped := states[i].dropped + |batch|, refused := states[i].refused + |batch|)
    ensures !Possible(states[i], Start) && !Possible(states[i], Resume)
  {
    RunKeepsValid(states, events, i);
  }
}
