/**
 * Whether there is a connection when a worker sends a signal or do_call_reply fetches an answer: both use
 * _connection without looking whether it is still there.
 */
module Workers {
  import opened Filters
  import opened Connection
  import opened ExampleRuns
  import L = Lifecycle
  import D = Delivery

  /** A worker has something left to send, or a call waits for its reply. */
  predicate Outstanding(q: D.Queues) {
    q.awaiting != [] || exists k :: 0 <= k < |q.batches| && q.batches[k].sent < |q.batches[k].signals|
  }

  /** These steps use the connection. */
  predicate UsesConnection(e: Event) {
    e.QueueEvent? && (e.queue.WorkerSend? || e.queue.Reply?)
  }

  /** The connection goes away: after a lost name, or at the end of a Disconnect. */
  ghost predicate ClosesConnection(c: Conn, e: Event)
    requires Enabled(c, e)
  {
    c.life.connected && !Step(c, e).life.connected
  }

  ghost predicate Settled(c: Conn) {
    c.life.connected || !Outstanding(c.queues)
  }

  lemma ClosesInLoop(c: Conn, e: Event)
    requires Inv(c) && Enabled(c, e) && ClosesConnection(c, e)
    ensures e.LifeEvent? && c.queues.pc == D.Loop
  {
    hide D.Inv, D.Enabled, D.Step;
    match e
    case LifeEvent(f) =>
      if c.queues.pc != D.Loop {
        OtherThreadKeepsConnection(c.life, f);
        assert false;
      }
    case QueueEvent(_) => assert false;
  }

  /** Without a connection nothing becomes outstanding. */
  lemma QueueStepSettled(q: D.Queues, e: D.Event, status: nat, disconnectStatus: nat)
    requires D.Enabled(q, e) && q.pc == D.Loop && !Outstanding(q)
    ensures !Outstanding(D.Step(q, e, status, disconnectStatus))
  {
    hide Filter, D.Flat, D.Sent, D.SentOf, D.Unsent;
  }

  lemma SettledStep(c: Conn, e: Event)
    requires Inv(c) && Enabled(c, e) && Settled(c)
    ensures Settled(Step(c, e)) <==> !(ClosesConnection(c, e) && Outstanding(c.queues))
  {
    hide Outstanding, Filter, D.Step, D.Enabled, D.Inv, L.Enabled, L.Step, L.Inv;
    match e
    case LifeEvent(_) =>
    case QueueEvent(f) =>
      if !c.life.connected {
        QueueStepSettled(c.queues, f, c.life.status, c.life.disconnectStatus);
      }
  }

  /** The connection was closed at step i with something outstanding. */
  ghost predicate ClosedEarly(states: seq<Conn>, events: seq<Event>, i: nat)
    requires IsRun(states, events) && i < |events|
  {
    ClosesConnection(states[i], events[i]) && Outstanding(states[i].queues)
  }

  lemma {:induction false} SettledUntil(states: seq<Conn>, events: seq<Event>, k: nat)
    requires IsRun(states, events) && k < |states|
    requires forall i :: 0 <= i < k ==> !ClosedEarly(states, events, i)
    ensures Settled(states[k])
  {
    if k > 0 {
      hide Enabled, Step, Inv, Settled, Outstanding, ClosesConnection;
      SettledUntil(states, events, k - 1);
      RunKeepsInv(states, events, k - 1);
      assert !ClosedEarly(states, events, k - 1);
      SettledStep(states[k - 1], events[k - 1]);
    }
  }

  lemma ClosedEarlyUnsettles(states: seq<Conn>, events: seq<Event>, i: nat)
    requires IsRun(states, events) && i < |events| && ClosedEarly(states, events, i)
    ensures !Settled(states[i + 1])
  {
    hide Outstanding;
    RunKeepsInv(states, events, i);
    ClosesInLoop(states[i], events[i]);
  }

  /** What is outstanding can happen at once, and nothing else uses the connection. */
  lemma OutstandingUses(c: Conn)
    requires Inv(c) && c.queues.pc == D.Loop
    ensures Outstanding(c.queues) <==> exists e :: UsesConnection(e) && Enabled(c, e)
  {
    hide Inv;
    var q := c.queues;
    if q.awaiting != [] {
      var e := QueueEvent(D.Reply(0));
      assert UsesConnection(e) && Enabled(c, e);
    } else if k :| 0 <= k < |q.batches| && q.batches[k].sent < |q.batches[k].signals| {
      var e := QueueEvent(D.WorkerSend(k));
      assert UsesConnection(e) && Enabled(c, e);
    }
  }

  /** In this state a worker could send, or a reply be fetched, without a connection. */
  ghost predicate Exposed(c: Conn) {
    !c.life.connected && exists e :: UsesConnection(e) && Enabled(c, e)
  }

  lemma ExposedWhen(c: Conn)
    requires Inv(c)
    ensures Exposed(c) <==> !Settled(c)
  {
    hide L.Inv, D.Inv, Outstanding, D.Enabled;
    if !c.life.connected {
      OutstandingUses(c);
    }
  }

  /**
   * In no state of a run can a worker send or a reply be fetched without a connection, if and only if the run
   * never closes the connection while a worker has something left to send or a call waits for its reply.
   */
  lemma ConnectionThereIff(states: seq<Conn>, events: seq<Event>)
    requires IsRun(states, events)
    ensures (forall k :: 0 <= k < |states| ==> !Exposed(states[k])) <==>
            forall i :: 0 <= i < |events| ==> !ClosedEarly(states, events, i)
  {
    hide Enabled, Step, Inv, Settled, Exposed, ClosedEarly;
    forall k | 0 <= k < |states|
      ensures Exposed(states[k]) <==> !Settled(states[k])
    {
      RunKeepsInv(states, events, k);
      ExposedWhen(states[k]);
    }
    if i :| 0 <= i < |events| && ClosedEarly(states, events, i) {
      ClosedEarlyUnsettles(states, events, i);
      assert Exposed(states[i + 1]);
    } else {
      forall k | 0 <= k < |states|
        ensures !Exposed(states[k])
      {
        SettledUntil(states, events, k);
      }
    }
  }

  /** A signal in a batch, and a Disconnect that is faster than the worker: the signal is sent without a connection. */
  lemma ExposedExample() returns (states: seq<Conn>, events: seq<Event>)
    ensures IsRun(states, events) && |states| == |events| + 1
    ensures var c := states[|events|];
            !c.life.connected && Enabled(c, QueueEvent(D.WorkerSend(0)))
  {
    hide IsRun;
    states, events := PushedRun();
    states, events := Then(states, events, LifeEvent(L.Disconnect));
    states, events := Disconnects(states, events);
    hide L.Step, L.Enabled;
  }

  lemma PushedRun() returns (states: seq<Conn>, events: seq<Event>)
    ensures IsRun(states, events) && |states| == |events| + 1
    ensures var c := states[|events|];
            && Plain(c.life, 3) && c.queues.pc == D.Loop && c.queues.batches == [D.Batch([7], 0)]
            && c.queues.signals == [] && c.queues.calls == [] && c.queues.flusher == D.NotFlushing
  {
    hide IsRun;
    states, events := Fresh();
    states, events := Connects(states, events);
    hide L.Step, L.Enabled;
    states, events := Then(states, events, QueueEvent(D.EmitSignal(7)));
    assert states[|events|].queues.signals == [7];
    states, events := Then(states, events, QueueEvent(D.DispatchEmit));
    states, events := Then(states, events, QueueEvent(D.EmitDrain));
    assert states[|events|].queues.pc == D.EmitHolding([7]) && states[|events|].queues.batches == [];
    states, events := Then(states, events, QueueEvent(D.EmitPush));
  }
}
