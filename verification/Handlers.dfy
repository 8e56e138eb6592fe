/** The handlers of the two queues over whole runs: when there is one, and what happens when it was dropped. */
module Handlers {
  import opened Filters
  import opened Connection
  import opened ExampleRuns
  import L = Lifecycle
  import D = Delivery

  datatype Queue = SignalQueue | CallQueue

  predicate Queued(q: D.Queues, w: Queue) {
    match w case SignalQueue => q.signals != [] case CallQueue => q.calls != []
  }

  /** The handlers of a queue that are attached or running and have not passed their drain. */
  function Attached(q: D.Queues, w: Queue): nat {
    match w case SignalQueue => D.EmitHandlers(q) case CallQueue => D.CallHandlers(q)
  }

  predicate Stranded(q: D.Queues, w: Queue) {
    match w case SignalQueue => q.strandedSignals case CallQueue => q.strandedCalls
  }

  /** The handler of a queue is dispatched while a Disconnect is under way. */
  ghost predicate DropsHandler(c: Conn, e: Event, w: Queue) {
    e == QueueEvent(match w case SignalQueue => D.DispatchEmit case CallQueue => D.DispatchCall)
    && c.life.disconnectStatus > 0
  }

  lemma StrandedBy(c: Conn, e: Event, w: Queue)
    requires Enabled(c, e)
    ensures Stranded(Step(c, e).queues, w) <==> Stranded(c.queues, w) || DropsHandler(c, e, w)
  {
    match e
    case LifeEvent(_) => hide L.Step, L.Enabled;
    case QueueEvent(_) => hide Filter;
  }

  ghost predicate DroppedBefore(states: seq<Conn>, events: seq<Event>, k: nat, w: Queue)
    requires k <= |events| < |states|
  {
    exists i :: 0 <= i < k && DropsHandler(states[i], events[i], w)
  }

  lemma {:induction false} StrandedWhen(states: seq<Conn>, events: seq<Event>, k: nat, w: Queue)
    requires IsRun(states, events) && k < |states|
    ensures Stranded(states[k].queues, w) <==> DroppedBefore(states, events, k, w)
  {
    hide Enabled, Step, DropsHandler, Stranded;
    if k == 0 {
      NothingStranded(states, events, w);
    } else {
      StrandedWhen(states, events, k - 1, w);
      StrandedBy(states[k - 1], events[k - 1], w);
      assert DroppedBefore(states, events, k, w) <==>
             DroppedBefore(states, events, k - 1, w) || DropsHandler(states[k - 1], events[k - 1], w);
    }
  }

  lemma NothingStranded(states: seq<Conn>, events: seq<Event>, w: Queue)
    requires IsRun(states, events)
    ensures !Stranded(states[0].queues, w)
  {
  }

  /**
   * A queue is non-empty exactly if one attached handler has not yet passed its drain. It holds in every state
   * of a run if and only if no handler of that queue is dispatched during a Disconnect.
   */
  lemma OneHandler(states: seq<Conn>, events: seq<Event>, w: Queue)
    requires IsRun(states, events)
    ensures (forall k :: 0 <= k < |states| ==>
               Attached(states[k].queues, w) == if Queued(states[k].queues, w) then 1 else 0)
            <==> forall i :: 0 <= i < |events| ==> !DropsHandler(states[i], events[i], w)
  {
    hide DropsHandler, Enabled, Step, Inv, Attached, Queued, Stranded;
    forall k | 0 <= k < |states|
      ensures Attached(states[k].queues, w) ==
              if Queued(states[k].queues, w) && !DroppedBefore(states, events, k, w) then 1 else 0
      ensures DroppedBefore(states, events, k, w) ==> Queued(states[k].queues, w)
    {
      RunKeepsInv(states, events, k);
      StrandedWhen(states, events, k, w);
      AttachedWhen(states[k], w);
    }
    var n := |events|;
    assert DroppedBefore(states, events, n, w) <==> exists i :: 0 <= i < n && DropsHandler(states[i], events[i], w);
    assert n < |states|;
    if DroppedBefore(states, events, n, w) {
      assert Attached(states[n].queues, w) != if Queued(states[n].queues, w) then 1 else 0;
    } else {
      assert forall k :: 0 <= k < |states| ==> !DroppedBefore(states, events, k, w);
    }
  }

  lemma AttachedWhen(c: Conn, w: Queue)
    requires Inv(c)
    ensures Attached(c.queues, w) == if Queued(c.queues, w) && !Stranded(c.queues, w) then 1 else 0
    ensures Stranded(c.queues, w) ==> Queued(c.queues, w)
  {
    hide L.Inv, D.OrderInv, D.WorkerInv, D.CallInv;
  }

  // --- after a handler was dropped ------------------------------------------

  /** What was stranded at q stays so at r, and nothing has left the queue. */
  ghost predicate StillStranded(q: D.Queues, r: D.Queues, w: Queue) {
    && Stranded(r, w) && Attached(r, w) == 0
    && (r.flusher == D.Returned(true) ==> q.flusher == D.Returned(true))
    && match w
       case SignalQueue =>
         q.signals <= r.signals && D.Flat(r.batches) + D.Held(r.pc) == D.Flat(q.batches) + D.Held(q.pc)
       case CallQueue => q.calls <= r.calls && r.issued == q.issued
  }

  lemma StrandedSignalStep(q: D.Queues, e: D.Event, status: nat, disconnectStatus: nat)
    requires D.HandlerInv(q) && D.Enabled(q, e) && q.strandedSignals
    ensures StillStranded(q, D.Step(q, e, status, disconnectStatus), SignalQueue)
  {
    hide D.Flat, D.SentOf, D.Sent, D.Unsent, Filter;
    assert D.EmitHandlers(q) == 0 && q.signals != [];
    match e
    case WorkerSend(k) =>
      D.SendKeepsFlat(q.batches, k, q.batches[k].(sent := q.batches[k].sent + 1));
    case EmitPush =>
      D.FlatPush(q.batches, D.Batch(q.pc.signals, 0));
    case EmitDrain => assert false;
    case DispatchEmit => assert false;
    case _ =>
  }

  lemma StrandedCallStep(q: D.Queues, e: D.Event, status: nat, disconnectStatus: nat)
    requires D.HandlerInv(q) && D.Enabled(q, e) && q.strandedCalls
    ensures StillStranded(q, D.Step(q, e, status, disconnectStatus), CallQueue)
  {
    hide D.Flat, D.SentOf, D.Sent, D.Unsent, Filter;
    assert D.CallHandlers(q) == 0 && q.calls != [];
    match e
    case CallDrain => assert false;
    case DispatchCall => assert false;
    case _ =>
  }

  lemma StrandedStep(c: Conn, e: Event, w: Queue)
    requires Inv(c) && Enabled(c, e) && Stranded(c.queues, w)
    ensures StillStranded(c.queues, Step(c, e).queues, w)
  {
    match e
    case LifeEvent(_) =>
      hide L.Step, L.Enabled, L.Inv;
    case QueueEvent(f) =>
      hide StillStranded, D.Step, D.Enabled, L.Inv;
      match w
      case SignalQueue => StrandedSignalStep(c.queues, f, c.life.status, c.life.disconnectStatus);
      case CallQueue => StrandedCallStep(c.queues, f, c.life.status, c.life.disconnectStatus);
  }

  lemma StrandedNow(c: Conn, w: Queue)
    requires Inv(c) && Stranded(c.queues, w)
    ensures Queued(c.queues, w) && StillStranded(c.queues, c.queues, w)
  {
    hide L.Inv, D.OrderInv, D.WorkerInv, D.CallInv, D.Flat;
  }

  lemma StrandedFlag(q: D.Queues, r: D.Queues, w: Queue)
    requires StillStranded(q, r, w)
    ensures Stranded(r, w)
  {
  }

  lemma StrandedTransitive(p: D.Queues, q: D.Queues, r: D.Queues, w: Queue)
    requires StillStranded(p, q, w) && StillStranded(q, r, w)
    ensures StillStranded(p, r, w)
  {
  }

  /**
   * Once a handler was dropped, nothing submitted to its queue after that is ever sent or issued and no Flush
   * succeeds, whatever happens later: the queue never becomes empty, so that no new handler is attached.
   */
  lemma {:induction false} StrandedForever(states: seq<Conn>, events: seq<Event>, j: nat, k: nat, w: Queue)
    requires IsRun(states, events) && j <= k < |states| && DroppedBefore(states, events, j, w)
    ensures Queued(states[j].queues, w) && StillStranded(states[j].queues, states[k].queues, w)
  {
    hide Enabled, Step, Inv, StillStranded, Stranded, Queued;
    RunKeepsInv(states, events, j);
    StrandedWhen(states, events, j, w);
    StrandedNow(states[j], w);
    if j < k {
      StrandedForever(states, events, j, k - 1, w);
      RunKeepsInv(states, events, k - 1);
      StrandedFlag(states[j].queues, states[k - 1].queues, w);
      StrandedStep(states[k - 1], events[k - 1], w);
      StrandedTransitive(states[j].queues, states[k - 1].queues, states[k].queues, w);
    }
  }

  // --- runs that strand something -------------------------------------------

  /** Connecting, emitting a signal or calling a method, and a Disconnect before the handler is dispatched. */
  lemma DroppedRun(w: Queue) returns (states: seq<Conn>, events: seq<Event>)
    ensures IsRun(states, events) && |states| == |events| + 1
    ensures var c := states[|events|];
            && c.life.disconnectStatus == 1 && c.life.flushSources == 1
            && Plain(c.life.(disconnectStatus := 0, flushSources := 0), 3)
            && c.queues == match w
                           case SignalQueue => D.Empty().(signals := [7], submitted := [7], strandedSignals := true)
                           case CallQueue => D.Empty().(calls := [D.Call(7, true)], submittedCalls := [D.Call(7, true)],
                                                        strandedCalls := true)
  {
    hide IsRun;
    states, events := Fresh();
    states, events := Connects(states, events);
    match w
    case SignalQueue =>
      states, events := Then(states, events, QueueEvent(D.EmitSignal(7)));
      states, events := Then(states, events, LifeEvent(L.Disconnect));
      states, events := Then(states, events, QueueEvent(D.DispatchEmit));
    case CallQueue =>
      states, events := Then(states, events, QueueEvent(D.CallMethod(D.Call(7, true))));
      states, events := Then(states, events, LifeEvent(L.Disconnect));
      states, events := Then(states, events, QueueEvent(D.DispatchCall));
  }

  /** After that, a new Connect and another submission: two of them are queued and no handler is attached. */
  lemma StrandedExample(w: Queue) returns (states: seq<Conn>, events: seq<Event>)
    ensures IsRun(states, events) && |states| == |events| + 1
    ensures var c := states[|events|];
            && c.life.status == 3 && Attached(c.queues, w) == 0 && Stranded(c.queues, w)
            && match w
               case SignalQueue => c.queues.signals == [7, 8]
               case CallQueue => c.queues.calls == [D.Call(7, true), D.Call(8, true)]
  {
    hide IsRun;
    states, events := DroppedRun(w);
    states, events := Disconnects(states, events);
    states, events := Connects(states, events);
    hide L.Enabled, L.Step;
    var e := match w case SignalQueue => D.EmitSignal(8) case CallQueue => D.CallMethod(D.Call(8, true));
    states, events := Then(states, events, QueueEvent(e));
  }
}
