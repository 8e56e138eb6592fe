/** A Disconnect of the whole connection: that it ends, and whether the workers are done before the connection goes. */
module Shutdown {
  import opened Connection
  import opened ExampleRuns
  import opened Filters
  import opened Flushing
  import opened Workers
  import L = Lifecycle
  import R = LifecycleRuns
  import D = Delivery

  // --- it ends --------------------------------------------------------------

  /** How many of the events belong to the life cycle. */
  function LifeEvents(events: seq<Event>): nat {
    if events == [] then 0 else (if events[0].LifeEvent? then 1 else 0) + LifeEvents(events[1..])
  }

  lemma LifeEventsFrom(events: seq<Event>, j: nat, k: nat)
    requires j < k <= |events|
    ensures LifeEvents(events[j..k]) == (if events[j].LifeEvent? then 1 else 0) + LifeEvents(events[j + 1..k])
  {
    assert events[j..k][1..] == events[j + 1..k];
  }

  /**
   * However the queues, the workers and other threads come in between, a Disconnect is over after at most four
   * callbacks, plus one for each timer.
   */
  lemma {:induction false} DisconnectEnds(states: seq<Conn>, events: seq<Event>, j: nat) returns (k: nat)
    requires IsRun(states, events) && j < |states| && states[j].life.disconnectStatus == 1
    requires LifeEvents(events[j..]) >= R.Remaining(states[j].life)
    ensures j < k < |states| && R.Down(states[k].life)
    ensures LifeEvents(events[j..k]) <= R.Remaining(states[j].life)
    decreases |events| - j
  {
    hide L.Inv, L.Enabled, L.Step, R.Down, R.Remaining, D.Inv, D.Enabled, D.Step;
    var l, n := states[j].life, |events|;
    RunKeepsInv(states, events, j);
    R.DisconnectPending(l);
    R.PendingRemains(l);
    assert events[j..n] == events[j..];
    assert j < n;
    assert events[j + 1..n] == events[j + 1..];
    LifeEventsFrom(events, j, n);
    if events[j].LifeEvent? {
      R.DisconnectProgress(l, events[j].life);
    }
    if states[j + 1].life.disconnectStatus == 2 {
      RunKeepsInv(states, events, j + 1);
      R.DisconnectedIsDown(states[j + 1].life);
      k := j + 1;
      assert events[j..k] == [events[j]];
    } else {
      k := DisconnectEnds(states, events, j + 1);
      LifeEventsFrom(events, j, k);
    }
  }

  // --- whether the workers are done -----------------------------------------

  predicate NoConnect(events: seq<Event>) {
    forall i :: 0 <= i < |events| ==> events[i].LifeEvent? ==> !events[i].life.Connect?
  }

  /** The main loop is between two callbacks and nothing is left to send or to wait for. */
  ghost predicate Quiet(q: D.Queues) {
    q.pc == D.Loop && !Outstanding(q)
  }

  /** A Disconnect is under way or over, and nothing connects again. */
  ghost predicate GoingDown(l: L.Life) {
    l.disconnectStatus > 0 || (l.status == 0 && l.connectSources == 0)
  }

  lemma StaysDown(l: L.Life, e: L.Event)
    requires L.Inv(l) && GoingDown(l) && L.Enabled(l, e) && !e.Connect?
    ensures GoingDown(L.Step(l, e))
  {
    if l.disconnectStatus > 0 {
      if e.DisconnectReturns? || e.Disconnect? {
      } else {
        R.ClosingGoesOn(l, e);
      }
    }
  }

  lemma StaysInLoop(q: D.Queues, e: D.Event, status: nat, disconnectStatus: nat)
    requires D.Enabled(q, e) && q.pc == D.Loop && (disconnectStatus > 0 || status < 3)
    ensures D.Step(q, e, status, disconnectStatus).pc == D.Loop
  {
  }

  lemma QuietStep(c: Conn, e: Event)
    requires Inv(c) && Quiet(c.queues) && GoingDown(c.life) && Enabled(c, e) && (e.LifeEvent? ==> !e.life.Connect?)
    ensures var d := Step(c, e); Quiet(d.queues) && GoingDown(d.life)
  {
    hide Outstanding, L.Inv, L.Enabled, L.Step, D.Inv, D.Enabled, D.Step;
    match e
    case LifeEvent(f) => StaysDown(c.life, f);
    case QueueEvent(f) =>
      QueueStepSettled(c.queues, f, c.life.status, c.life.disconnectStatus);
      StaysInLoop(c.queues, f, c.life.status, c.life.disconnectStatus);
  }

  lemma QuietIsSafe(c: Conn)
    requires Inv(c) && Quiet(c.queues)
    ensures !Exposed(c)
  {
    hide Inv, Outstanding, Enabled;
    OutstandingUses(c);
  }

  lemma {:induction false} QuietForever(c: Conn, more: seq<Event>, d: Conn)
    requires Inv(c) && Quiet(c.queues) && GoingDown(c.life) && Reaches(c, more, d) && NoConnect(more)
    ensures !Exposed(d)
    decreases |more|
  {
    hide Inv, Enabled, Step, Quiet, GoingDown, Exposed;
    if more == [] {
      QuietIsSafe(c);
    } else {
      StepKeepsInv(c, more[0]);
      QuietStep(c, more[0]);
      assert forall i :: 0 <= i < |more[1..]| ==> more[1..][i] == more[i + 1];
      QuietForever(Step(c, more[0]), more[1..], d);
    }
  }

  /** An id that no call has. */
  function FreshId(calls: seq<D.Call>): (id: nat)
    ensures forall d | d in calls :: d.id < id
  {
    if calls == [] then 0 else
      var id := FreshId(calls[1..]);
      if calls[0].id < id then id else calls[0].id + 1
  }

  /** do_emit_signal leaves a batch behind. */
  lemma EmitFinishes(c: Conn) returns (events: seq<Event>, d: Conn)
    requires D.HandlerInv(c.queues) && (c.queues.pc == D.EmitArmed || c.queues.pc.EmitHolding?)
    ensures Reaches(c, events, d) && NoConnect(events) && d.life == c.life
    ensures d.queues.pc == D.Loop && Outstanding(d.queues)
  {
    hide Reaches;
    var push := QueueEvent(D.EmitPush);
    if c.queues.pc == D.EmitArmed {
      var drain := QueueEvent(D.EmitDrain);
      var m := Step(c, drain);
      d := Step(m, push);
      OneEvent(c, drain);
      OneEvent(m, push);
      ReachesFurther(c, [drain], m, [push], d);
      events := [drain] + [push];
    } else {
      d := Step(c, push);
      OneEvent(c, push);
      events := [push];
    }
    var b := |d.queues.batches| - 1;
    assert d.queues.batches[b].sent < |d.queues.batches[b].signals|;
  }

  /** do_call_method issues a call that somebody makes at that moment. */
  lemma CallFinishes(c: Conn) returns (events: seq<Event>, d: Conn)
    requires c.queues.pc == D.CallArmed
    ensures Reaches(c, events, d) && NoConnect(events) && d.life == c.life
    ensures d.queues.pc == D.Loop && Outstanding(d.queues)
  {
    hide Reaches;
    var call := D.Call(FreshId(c.queues.submittedCalls), true);
    var submit, drain := QueueEvent(D.CallMethod(call)), QueueEvent(D.CallDrain);
    var m := Step(c, submit);
    d := Step(m, drain);
    OneEvent(c, submit);
    OneEvent(m, drain);
    ReachesFurther(c, [submit], m, [drain], d);
    events := [submit] + [drain];
    FilterAppend(c.queues.calls, call, D.Wants(true));
  }

  /** The main loop can run through the whole Disconnect before any worker takes a step. */
  lemma CloseExposes(c: Conn) returns (events: seq<Event>, d: Conn)
    requires Inv(c) && c.life.disconnectStatus == 1 && c.queues.pc == D.Loop && Outstanding(c.queues)
    ensures Reaches(c, events, d) && NoConnect(events) && Exposed(d)
  {
    hide L.Inv, D.Inv, L.Step, L.Enabled, Outstanding, Reaches, Exposed;
    var lives, closing := R.Closing(c.life);
    events := LifeReaches(c, lives, closing);
    d := c.(life := lives[|closing|]);
    ReachesInv(c, events, d);
    ExposedWhen(d);
  }

  lemma UnquietExposes(c: Conn) returns (events: seq<Event>, d: Conn)
    requires Inv(c) && c.life.disconnectStatus == 1 && !Quiet(c.queues)
    ensures Reaches(c, events, d) && NoConnect(events) && Exposed(d)
  {
    hide L.Inv, D.OrderInv, D.WorkerInv, D.CallInv, Outstanding, Exposed;
    var a, m := [], c;
    assert Reaches(c, a, m);
    hide Reaches;
    if c.queues.pc == D.CallArmed {
      a, m := CallFinishes(c);
    } else if c.queues.pc != D.Loop {
      a, m := EmitFinishes(c);
    }
    ReachesInv(c, a, m);
    var b;
    b, d := CloseExposes(m);
    ReachesFurther(c, a, m, b, d);
    events := a + b;
  }

  /**
   * After a Disconnect no worker ever sends and no reply is ever fetched without a connection, until the next
   * Connect, if and only if at the call the main loop is not inside do_emit_signal or do_call_method, no worker has
   * something left to send and no call waits for its reply.
   */
  lemma DisconnectSafeIff(states: seq<Conn>, events: seq<Event>, k: nat)
    requires IsRun(states, events) && k < |states| && Enabled(states[k], LifeEvent(L.Disconnect))
    ensures var c := Step(states[k], LifeEvent(L.Disconnect));
            (forall more, d | Reaches(c, more, d) && NoConnect(more) :: !Exposed(d)) <==>
            states[k].queues.pc == D.Loop && !Outstanding(states[k].queues)
  {
    hide Inv, Reaches, Exposed, Outstanding, IsRun;
    var c := Step(states[k], LifeEvent(L.Disconnect));
    RunKeepsInv(states, events, k);
    StepKeepsInv(states[k], LifeEvent(L.Disconnect));
    assert c.queues == states[k].queues && c.life.disconnectStatus == 1;
    if Quiet(c.queues) {
      forall more, d | Reaches(c, more, d) && NoConnect(more)
        ensures !Exposed(d)
      {
        QuietForever(c, more, d);
      }
    } else {
      var more, d := UnquietExposes(c);
    }
  }

  /** Flush does not wait for the workers: it has returned true, and still a signal is sent without a connection. */
  lemma FlushedExample() returns (states: seq<Conn>, events: seq<Event>, k: nat)
    ensures IsRun(states, events) && |states| == |events| + 1
    ensures k < |events| && events[k] == LifeEvent(L.Disconnect) && states[k].queues.flusher == D.Returned(true)
    ensures var c := states[|events|];
            !c.life.connected && Enabled(c, QueueEvent(D.WorkerSend(0)))
  {
    hide IsRun;
    states, events := FlushedRun();
    k := |events|;
    states, events := Then(states, events, LifeEvent(L.Disconnect));
    states, events := Disconnects(states, events);
    hide L.Step, L.Enabled;
  }

  lemma FlushedRun() returns (states: seq<Conn>, events: seq<Event>)
    ensures IsRun(states, events) && |states| == |events| + 1
    ensures var c := states[|events|];
            && Plain(c.life, 3) && c.queues.pc == D.Loop && c.queues.batches == [D.Batch([7], 0)]
            && c.queues.flusher == D.Returned(true)
  {
    hide IsRun;
    states, events := PushedRun();
    hide L.Step, L.Enabled;
    states, events := Then(states, events, QueueEvent(D.FlushCall));
    states, events := Then(states, events, QueueEvent(D.FlushCheck));
  }
}
