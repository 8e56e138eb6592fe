/** cDBusConnection::Flush over whole runs: what it means that it returned, and exactly when it can return. */
module Flushing {
  import opened Filters
  import opened Connection
  import opened ExampleRuns
  import opened Handlers
  import L = Lifecycle
  import R = LifecycleRuns
  import D = Delivery

  /** Flush returns true only from a state with both queues empty. */
  lemma FlushTrue(c: Conn, e: Event)
    requires Enabled(c, e) && c.queues.flusher != D.Returned(true) && Step(c, e).queues.flusher == D.Returned(true)
    ensures c.queues.signals == [] && c.queues.calls == [] && c.queues.flusher == D.AtCheck
  {
    match e
    case LifeEvent(_) => hide L.Step, L.Enabled;
    case QueueEvent(f) =>
      hide L.Step, L.Enabled, Filter;
      match f
      case FlushCheck =>
      case _ =>
  }

  /**
   * When Flush has returned true, both queues were empty at a moment j after its call: everything emitted or
   * called until then has left them.
   */
  lemma {:induction false} FlushMeaning(states: seq<Conn>, events: seq<Event>, k: nat) returns (j: nat)
    requires IsRun(states, events) && k < |states| && states[k].queues.flusher == D.Returned(true)
    ensures j < k && (forall i :: j < i <= k ==> states[i].queues.flusher == D.Returned(true))
    ensures states[j].queues.flusher == D.AtCheck
    ensures var q := states[j].queues;
            q.submitted == D.Flat(q.batches) + D.Held(q.pc) && q.submittedCalls == q.issued
  {
    hide Enabled, Step, D.Flat, L.Inv, D.WorkerInv, D.HandlerInv;
    if k > 0 && states[k - 1].queues.flusher == D.Returned(true) {
      j := FlushMeaning(states, events, k - 1);
    } else {
      assert k > 0;
      j := k - 1;
      FlushTrue(states[j], events[j]);
      RunKeepsInv(states, events, j);
    }
  }

  /** No wake-up is lost: a thread sleeps unnotified only while something is queued. */
  lemma NoLostWakeup(states: seq<Conn>, events: seq<Event>, k: nat)
    requires IsRun(states, events) && k < |states|
    ensures var q := states[k].queues; q.flusher == D.Sleeping(false) ==> q.signals != [] || q.calls != []
  {
    hide L.Inv, D.OrderInv, D.WorkerInv, D.CallInv, D.HandlerInv;
    RunKeepsInv(states, events, k);
  }

  lemma FlusherStep(q: D.Queues, e: D.Event, status: nat, disconnectStatus: nat)
    requires D.Enabled(q, e)
    ensures var f, g := q.flusher, D.Step(q, e, status, disconnectStatus).flusher;
            && (f != D.Returned(false) && g == D.Returned(false) <==> e.FlushCall? && status == 0)
            && (e.FlushCall? && status != 0 ==> g == D.AtCheck)
            && (e.FlushReturn? ==> g == D.NotFlushing)
            && (f == D.NotFlushing && g != D.NotFlushing ==> e.FlushCall?)
            && (f.Returned? && g != f ==> e.FlushReturn?)
  {
    hide Filter;
  }

  /** Flush gives up exactly in status 0, at its call; otherwise its answer is true or it waits. */
  lemma FlushGivesUpIff(states: seq<Conn>, events: seq<Event>, k: nat)
    requires IsRun(states, events) && k < |events|
    ensures var f, g := states[k].queues.flusher, states[k + 1].queues.flusher;
            && (f != D.Returned(false) && g == D.Returned(false) <==>
                  events[k] == QueueEvent(D.FlushCall) && states[k].life.status == 0)
            && (events[k] == QueueEvent(D.FlushCall) && states[k].life.status != 0 ==> g == D.AtCheck)
            && (events[k] == QueueEvent(D.FlushReturn) ==> g == D.NotFlushing)
            && (f == D.NotFlushing && g != D.NotFlushing ==> events[k] == QueueEvent(D.FlushCall))
            && (f.Returned? && g != f ==> events[k] == QueueEvent(D.FlushReturn))
  {
    hide L.Step, L.Enabled, D.Step, D.Enabled;
    match events[k]
    case LifeEvent(_) =>
    case QueueEvent(f) => FlusherStep(states[k].queues, f, states[k].life.status, states[k].life.disconnectStatus);
  }

  // --- when Flush can return ------------------------------------------------

  /** A thread is inside Flush. */
  predicate Waiting(q: D.Queues) {
    q.flusher.Sleeping? || q.flusher == D.AtCheck
  }

  /** Nobody calls Connect or Disconnect. */
  predicate NoLifeCalls(events: seq<Event>) {
    forall i :: 0 <= i < |events| ==> events[i].LifeEvent? ==> !L.OtherThread(events[i].life)
  }

  /** And nothing new is submitted: the main loop, the workers and the flushing thread only. */
  predicate OnlyPending(events: seq<Event>) {
    && NoLifeCalls(events)
    && forall i :: 0 <= i < |events| ==>
                     events[i].QueueEvent? ==> !events[i].queue.EmitSignal? && !events[i].queue.CallMethod?
  }

  ghost predicate FlushReturns(c: Conn, events: seq<Event>, d: Conn) {
    Reaches(c, events, d) && d.queues.flusher == D.Returned(true)
  }

  /** Handlers are still attached, and a flushing thread sleeps or is about to look. */
  ghost predicate Flushing(q: D.Queues) {
    D.HandlerInv(q) && !q.strandedSignals && !q.strandedCalls && (q.flusher.Sleeping? || q.flusher == D.AtCheck)
  }

  /** How far Flush still is from returning. */
  ghost function Distance(q: D.Queues): nat {
    (if q.signals != [] then 10 else 0) + (if q.calls != [] then 10 else 0)
    + (match q.pc case Loop => 3 case EmitHolding(_) => 4 case _ => 2)
    + if q.flusher.Sleeping? then 1 else 0
  }

  /** As long as the connection is up, something brings Flush nearer to returning. */
  lemma FlushAdvances(q: D.Queues, status: nat) returns (e: D.Event, r: D.Queues)
    requires Flushing(q) && status >= 3
    ensures D.Enabled(q, e) && r == D.Step(q, e, status, 0) && !e.EmitSignal? && !e.CallMethod?
    ensures r.flusher == D.Returned(true) || (Flushing(r) && Distance(r) < Distance(q))
  {
    e := match q.pc
      case EmitArmed => D.EmitDrain
      case EmitHolding(_) => D.EmitPush
      case CallArmed => D.CallDrain
      case Loop => if q.signals != [] then D.DispatchEmit
                   else if q.calls != [] then D.DispatchCall
                   else if q.flusher.Sleeping? then D.FlushWake else D.FlushCheck;
    r := D.Step(q, e, status, 0);
  }

  lemma {:induction false} FlushFinishes(c: Conn) returns (events: seq<Event>, d: Conn)
    requires Flushing(c.queues) && c.life.status >= 3 && c.life.disconnectStatus == 0
    ensures FlushReturns(c, events, d) && OnlyPending(events)
    decreases Distance(c.queues)
  {
    hide Flushing, Distance, D.Step, D.Enabled;
    var e, m := FlushAdvances(c.queues, c.life.status);
    var next := c.(queues := m);
    assert Step(c, QueueEvent(e)) == next;
    OneEvent(c, QueueEvent(e));
    hide Reaches, Step, Enabled;
    events, d := [QueueEvent(e)], next;
    if m.flusher != D.Returned(true) {
      var rest;
      rest, d := FlushFinishes(next);
      ReachesFurther(c, events, next, rest, d);
      events := events + rest;
    }
  }

  /** What the life cycle does by itself, it does beside the queues as well, while the main loop is idle. */
  lemma {:induction false} LifeReaches(c: Conn, states: seq<L.Life>, events: seq<L.Event>) returns (all: seq<Event>)
    requires R.IsRun(states, events) && states[0] == c.life && c.queues.pc == D.Loop
    requires forall i :: 0 <= i < |events| ==> !L.OtherThread(events[i])
    ensures Reaches(c, all, c.(life := states[|events|])) && OnlyPending(all)
    decreases |events|
  {
    hide L.Enabled, L.Step;
    if events == [] {
      all := [];
    } else {
      var next := c.(life := states[1]);
      assert Enabled(c, LifeEvent(events[0])) && Step(c, LifeEvent(events[0])) == next;
      var rest := LifeReaches(next, states[1..], events[1..]);
      all := [LifeEvent(events[0])] + rest;
      assert all[1..] == rest;
    }
  }

  /** Both queues are empty: the thread only has to look. */
  lemma FlushEmpty(c: Conn) returns (events: seq<Event>, d: Conn)
    requires Waiting(c.queues) && c.queues.signals == [] && c.queues.calls == []
    ensures FlushReturns(c, events, d) && OnlyPending(events)
  {
    var m := c.(queues := c.queues.(flusher := D.AtCheck));
    d := c.(queues := c.queues.(flusher := D.Returned(true)));
    assert Step(m, QueueEvent(D.FlushCheck)) == d;
    OneEvent(m, QueueEvent(D.FlushCheck));
    if c.queues.flusher == D.AtCheck {
      assert c == m;
      events := [QueueEvent(D.FlushCheck)];
    } else {
      assert Step(c, QueueEvent(D.FlushWake)) == m;
      OneEvent(c, QueueEvent(D.FlushWake));
      ReachesFurther(c, [QueueEvent(D.FlushWake)], m, [QueueEvent(D.FlushCheck)], d);
      events := [QueueEvent(D.FlushWake)] + [QueueEvent(D.FlushCheck)];
    }
  }

  /**
   * If the queues are empty, or there can be a connection and no handler was dropped, what is pending lets a Flush
   * return, provided that the bus answers.
   */
  lemma FlushNotStuck(states: seq<Conn>, events: seq<Event>, k: nat) returns (more: seq<Event>, d: Conn)
    requires IsRun(states, events) && k < |states|
    requires Waiting(states[k].queues) && states[k].life.disconnectStatus == 0
    requires CanFlush(states, events, k)
    ensures FlushReturns(states[k], more, d) && OnlyPending(more)
  {
    hide L.Inv, D.OrderInv, D.WorkerInv, D.CallInv, Distance, Enabled, Step, DroppedBefore, Reaches;
    var c := states[k];
    RunKeepsInv(states, events, k);
    StrandedWhen(states, events, k, SignalQueue);
    StrandedWhen(states, events, k, CallQueue);
    if c.queues.signals == [] && c.queues.calls == [] {
      more, d := FlushEmpty(c);
    } else if c.life.status >= 3 {
      more, d := FlushFinishes(c);
    } else {
      LoopWithoutConnection(c);
      var lives, first := R.Connecting(c.life);
      var a := LifeReaches(c, lives, first);
      var m := c.(life := lives[|first|]);
      var b;
      b, d := FlushFinishes(m);
      ReachesFurther(c, a, m, b, d);
      more := a + b;
    }
  }

  lemma LoopWithoutConnection(c: Conn)
    requires Inv(c) && c.life.status < 3
    ensures c.queues.pc == D.Loop
  {
    hide D.Inv, L.NameInv, L.CloseInv;
  }

  /** What a caller can tell: nothing is queued, or the connection is there or on its way and no handler was dropped. */
  ghost predicate CanFlush(states: seq<Conn>, events: seq<Event>, k: nat)
    requires k <= |events| < |states|
  {
    || (states[k].queues.signals == [] && states[k].queues.calls == [])
    || (&& R.CanConnect(states[k].life)
        && !DroppedBefore(states, events, k, SignalQueue) && !DroppedBefore(states, events, k, CallQueue))
  }

  /** A handler of one of the queues was dropped. */
  ghost predicate Lost(c: Conn) {
    Stranded(c.queues, SignalQueue) || Stranded(c.queues, CallQueue)
  }

  /** No connection is on its way, and something is queued. */
  ghost predicate Hopeless(c: Conn) {
    !R.CanConnect(c.life) && c.life.disconnectStatus == 0 && (c.queues.signals != [] || c.queues.calls != [])
  }

  lemma HopelessQueues(q: D.Queues, e: D.Event, status: nat)
    requires D.Enabled(q, e) && q.pc == D.Loop && status < 3 && (q.signals != [] || q.calls != [])
    ensures var r := D.Step(q, e, status, 0);
            && (r.signals != [] || r.calls != [])
            && (r.flusher == D.Returned(true) ==> q.flusher == D.Returned(true))
  {
    hide Filter;
  }

  lemma HopelessStep(c: Conn, e: Event)
    requires Inv(c) && Hopeless(c) && Enabled(c, e) && (e.LifeEvent? ==> !L.OtherThread(e.life))
    ensures var d := Step(c, e);
            Hopeless(d) && (d.queues.flusher == D.Returned(true) ==> c.queues.flusher == D.Returned(true))
  {
    hide D.Inv;
    match e
    case LifeEvent(f) =>
      R.NeverConnects(c.life, f);
      hide L.Step, L.Inv, L.Enabled, R.CanConnect;
    case QueueEvent(f) =>
      LoopWithoutConnection(c);
      HopelessQueues(c.queues, f, c.life.status);
      hide L.Inv, D.Step, D.Enabled;
  }

  lemma LostStep(c: Conn, e: Event)
    requires Inv(c) && Lost(c) && Enabled(c, e)
    ensures var d := Step(c, e);
            Lost(d) && (d.queues.flusher == D.Returned(true) ==> c.queues.flusher == D.Returned(true))
  {
    hide Inv, Enabled, Step;
    var w := if Stranded(c.queues, SignalQueue) then SignalQueue else CallQueue;
    StrandedStep(c, e, w);
  }

  /** Then Flush never returns true, however long the main loop, the workers and even other submitters go on. */
  lemma {:induction false} FlushStuck(c: Conn, more: seq<Event>, d: Conn)
    requires Inv(c) && (Lost(c) || Hopeless(c)) && Reaches(c, more, d) && NoLifeCalls(more)
    ensures d.queues.flusher == D.Returned(true) ==> c.queues.flusher == D.Returned(true)
    decreases |more|
  {
    hide Inv, Enabled, Step, Lost, Hopeless;
    if more != [] {
      var e, next := more[0], Step(c, more[0]);
      StepKeepsInv(c, e);
      if Lost(c) {
        LostStep(c, e);
      } else {
        HopelessStep(c, e);
      }
      assert forall i :: 0 <= i < |more[1..]| ==> more[1..][i] == more[i + 1];
      FlushStuck(next, more[1..], d);
    }
  }

  /**
   * A waiting Flush can return true if and only if nothing is queued, or the connection is there or on its way and
   * no handler of either queue was dropped before.
   */
  lemma FlushReturnsIff(states: seq<Conn>, events: seq<Event>, k: nat)
    requires IsRun(states, events) && k < |states|
    requires Waiting(states[k].queues) && states[k].life.disconnectStatus == 0
    ensures (exists more, d :: FlushReturns(states[k], more, d) && NoLifeCalls(more)) <==> CanFlush(states, events, k)
  {
    hide Inv, Enabled, Step, DroppedBefore, Reaches, R.CanConnect, Stranded;
    var c := states[k];
    RunKeepsInv(states, events, k);
    StrandedWhen(states, events, k, SignalQueue);
    StrandedWhen(states, events, k, CallQueue);
    if CanFlush(states, events, k) {
      var more, d := FlushNotStuck(states, events, k);
    } else {
      forall more, d | Reaches(c, more, d) && NoLifeCalls(more)
        ensures d.queues.flusher != D.Returned(true)
      {
        FlushStuck(c, more, d);
      }
    }
  }

  // --- Flush during a Disconnect --------------------------------------------

  /** What is queued is on its way out of the queues. */
  predicate Leaving(q: D.Queues) {
    (q.signals == [] || q.pc == D.EmitArmed) && (q.calls == [] || q.pc == D.CallArmed)
  }

  lemma StayingQueues(q: D.Queues, e: D.Event, status: nat, disconnectStatus: nat)
    requires D.Enabled(q, e) && disconnectStatus > 0 && !Leaving(q)
    ensures var r := D.Step(q, e, status, disconnectStatus);
            !Leaving(r) && (r.flusher == D.Returned(true) ==> q.flusher == D.Returned(true))
  {
    hide Filter;
  }

  lemma {:induction false} StayingStuck(c: Conn, more: seq<Event>, d: Conn)
    requires c.life.disconnectStatus > 0 && !Leaving(c.queues) && Reaches(c, more, d) && NoLifeCalls(more)
    ensures d.queues.flusher == D.Returned(true) ==> c.queues.flusher == D.Returned(true)
    decreases |more|
  {
    hide Leaving, D.Step, D.Enabled, L.Step, L.Enabled;
    if more != [] {
      match more[0]
      {
        case LifeEvent(f) => R.ClosingGoesOn(c.life, f);
        case QueueEvent(f) => StayingQueues(c.queues, f, c.life.status, c.life.disconnectStatus);
      }
      assert forall i :: 0 <= i < |more[1..]| ==> more[1..][i] == more[i + 1];
      StayingStuck(Step(c, more[0]), more[1..], d);
    }
  }

  lemma LeavingReturns(c: Conn) returns (more: seq<Event>, d: Conn)
    requires Waiting(c.queues) && Leaving(c.queues)
    ensures FlushReturns(c, more, d) && OnlyPending(more)
  {
    hide Reaches, Filter;
    if c.queues.signals == [] && c.queues.calls == [] {
      more, d := FlushEmpty(c);
    } else {
      var e := QueueEvent(if c.queues.pc == D.EmitArmed then D.EmitDrain else D.CallDrain);
      var m := Step(c, e);
      OneEvent(c, e);
      var rest;
      rest, d := FlushEmpty(m);
      ReachesFurther(c, [e], m, rest, d);
      more := [e] + rest;
    }
  }

  /** While a Disconnect is under way, a waiting Flush can return true if and only if all queued is leaving already. */
  lemma FlushDuringDisconnect(c: Conn)
    requires Waiting(c.queues) && c.life.disconnectStatus > 0
    ensures (exists more, d :: FlushReturns(c, more, d) && NoLifeCalls(more)) <==> Leaving(c.queues)
  {
    hide Leaving, Reaches;
    if Leaving(c.queues) {
      var more, d := LeavingReturns(c);
    } else {
      forall more, d | Reaches(c, more, d) && NoLifeCalls(more)
        ensures d.queues.flusher != D.Returned(true)
      {
        StayingStuck(c, more, d);
      }
    }
  }

  // --- a Flush that hangs without a dropped handler -------------------------

  /**
   * A second way to hang: Connect(FALSE), a bus that does not answer, a signal and a Flush. No handler was dropped,
   * and this Flush never returns.
   */
  lemma UnansweredExample() returns (states: seq<Conn>, events: seq<Event>)
    ensures IsRun(states, events) && |states| == |events| + 1
    ensures var c := states[|events|];
            && c.life.status == 1 && !c.life.reconnect && !Lost(c)
            && c.queues.signals == [7] && c.queues.flusher == D.Sleeping(false)
            && forall more, d :: Reaches(c, more, d) && NoLifeCalls(more) ==> d.queues.flusher != D.Returned(true)
  {
    hide IsRun, Reaches;
    states, events := Fresh();
    states, events := Unanswered(states, events);
    states, events := Then(states, events, QueueEvent(D.EmitSignal(7)));
    states, events := Then(states, events, QueueEvent(D.FlushCall));
    states, events := Then(states, events, QueueEvent(D.FlushCheck));
    RunKeepsInv(states, events, |events|);
    var c := states[|events|];
    assert c.queues.signals == [7] && Hopeless(c);
    hide Inv, Hopeless, L.Step, L.Enabled;
    forall more, d | Reaches(c, more, d) && NoLifeCalls(more)
      ensures d.queues.flusher != D.Returned(true)
    {
      FlushStuck(c, more, d);
    }
  }

  lemma Unanswered(before: seq<Conn>, past: seq<Event>) returns (states: seq<Conn>, events: seq<Event>)
    requires |before| == |past| + 1 && IsRun(before, past)
    requires Plain(before[|past|].life, 0) && before[|past|].queues == D.Empty()
    ensures IsRun(states, events) && |states| == |events| + 1
    ensures var c := states[|events|];
            && c.queues == D.Empty() && c.life.status == 1 && !c.life.reconnect && c.life.connectSources == 0
            && c.life.disconnectStatus == 0
  {
    hide IsRun;
    states, events := Then(before, past, LifeEvent(L.Connect(false)));
    states, events := Then(states, events, LifeEvent(L.DoConnect));
    states, events := Then(states, events, LifeEvent(L.OnBusGet(false, [])));
  }
}
