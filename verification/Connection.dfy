/** cDBusConnection as a whole: the life cycle and the queues together, over every run. */
module Connection {
  import opened Sequences
  import L = Lifecycle
  import D = Delivery

  datatype Conn = Conn(life: L.Life, queues: D.Queues)

  datatype Event = LifeEvent(life: L.Event) | QueueEvent(queue: D.Event)

  function Created(bus: L.BusKind, named: bool, interfaces: seq<nat>): Conn {
    Conn(L.Created(bus, named, interfaces), D.Empty())
  }

  /** The main loop runs one callback at a time; the calls of other threads come at any moment. */
  ghost predicate Enabled(c: Conn, e: Event) {
    match e
    case LifeEvent(f) => L.Enabled(c.life, f) && (L.OtherThread(f) || c.queues.pc == D.Loop)
    case QueueEvent(f) => D.Enabled(c.queues, f)
  }

  function Step(c: Conn, e: Event): Conn
    requires Enabled(c, e)
  {
    match e
    case LifeEvent(f) => c.(life := L.Step(c.life, f))
    case QueueEvent(f) => c.(queues := D.Step(c.queues, f, c.life.status, c.life.disconnectStatus))
  }

  /** Past the checks of do_emit_signal and do_call_method there is a connection. */
  ghost predicate Inv(c: Conn) {
    L.Inv(c.life) && D.Inv(c.queues) && (c.queues.pc != D.Loop ==> c.life.connected)
  }

  lemma OtherThreadKeepsConnection(l: L.Life, e: L.Event)
    requires L.Inv(l) && L.Enabled(l, e) && L.OtherThread(e) && l.connected
    ensures L.Step(l, e).connected
  {
  }

  lemma QueueStepNeedsConnection(q: D.Queues, e: D.Event, status: nat, disconnectStatus: nat)
    requires D.Enabled(q, e)
    ensures var r := D.Step(q, e, status, disconnectStatus); q.pc == D.Loop && r.pc != D.Loop ==> status >= 3
  {
  }

  lemma StepKeepsInv(c: Conn, e: Event)
    requires Inv(c) && Enabled(c, e)
    ensures Inv(Step(c, e))
  {
    match e
    case LifeEvent(f) =>
      L.StepKeepsInv(c.life, f);
      if c.queues.pc != D.Loop {
        OtherThreadKeepsConnection(c.life, f);
      }
      hide L.Inv, L.Enabled, L.Step, D.Inv;
    case QueueEvent(f) =>
      D.StepKeepsInv(c.queues, f, c.life.status, c.life.disconnectStatus);
      QueueStepNeedsConnection(c.queues, f, c.life.status, c.life.disconnectStatus);
      hide D.Inv, D.Enabled, D.Step, L.NameInv, L.CloseInv;
  }

  // --- runs -----------------------------------------------------------------

  ghost predicate IsRun(states: seq<Conn>, events: seq<Event>) {
    && |states| == |events| + 1
    && (exists bus, named, interfaces :: bus != L.NoAddress && states[0] == Created(bus, named, interfaces))
    && forall i :: 0 <= i < |events| ==> Enabled(states[i], events[i]) && states[i + 1] == Step(states[i], events[i])
  }

  lemma {:induction false} RunKeepsInv(states: seq<Conn>, events: seq<Event>, k: nat)
    requires IsRun(states, events) && k < |states|
    ensures Inv(states[k])
  {
    if k == 0 {
      var bus, named, interfaces :| bus != L.NoAddress && states[0] == Created(bus, named, interfaces);
      L.CreatedInv(bus, named, interfaces);
      D.EmptyInv();
    } else {
      hide Inv, Enabled, Step;
      RunKeepsInv(states, events, k - 1);
      StepKeepsInv(states[k - 1], events[k - 1]);
    }
  }

  /** Some events, one after the other. */
  ghost predicate Reaches(c: Conn, events: seq<Event>, d: Conn)
    decreases |events|
  {
    if events == [] then c == d else Enabled(c, events[0]) && Reaches(Step(c, events[0]), events[1..], d)
  }

  lemma {:induction false} ReachesFurther(c: Conn, a: seq<Event>, d: Conn, b: seq<Event>, e: Conn)
    requires Reaches(c, a, d) && Reaches(d, b, e)
    ensures Reaches(c, a + b, e)
    decreases |a|
  {
    hide Enabled, Step;
    if a == [] {
      assert a + b == b;
    } else {
      ReachesFurther(Step(c, a[0]), a[1..], d, b, e);
      assert (a + b)[1..] == a[1..] + b;
    }
  }

  lemma OneEvent(c: Conn, e: Event)
    requires Enabled(c, e)
    ensures Reaches(c, [e], Step(c, e))
  {
    hide Enabled, Step;
    assert Reaches(Step(c, e), [], Step(c, e));
  }

  lemma {:induction false} ReachesInv(c: Conn, events: seq<Event>, d: Conn)
    requires Inv(c) && Reaches(c, events, d)
    ensures Inv(d)
    decreases |events|
  {
    hide Inv, Enabled, Step;
    if events != [] {
      StepKeepsInv(c, events[0]);
      ReachesInv(Step(c, events[0]), events[1..], d);
    }
  }

  // --- signals --------------------------------------------------------------

  /** Whether and where a signal is: how often it is queued, on its way to the pool, in a batch, or sent. */
  function Places(q: D.Queues, s: nat): nat {
    multiset(q.signals)[s] + multiset(D.Held(q.pc))[s] + D.Unsent(q.batches)[s] + D.Sent(q.trace)[s]
  }

  /** Every emitted signal is in exactly one place, in every state of every run. */
  lemma ExactlyOnePlace(states: seq<Conn>, events: seq<Event>, k: nat, s: nat)
    requires IsRun(states, events) && k < |states|
    ensures Places(states[k].queues, s) == if s in states[k].queues.submitted then 1 else 0
  {
    RunKeepsInv(states, events, k);
    var q := states[k].queues;
    hide L.Inv, D.CallInv, D.HandlerInv, D.Flat, D.Sent, D.Unsent, D.InOrder;
    DistinctMultiplicity(q.submitted, s);
    assert multiset(q.submitted) == multiset(D.Flat(q.batches)) + multiset(D.Held(q.pc)) + multiset(q.signals);
  }

  /** The batches and then the queue are the submissions in order, and each batch is sent in order. */
  lemma SubmissionOrder(states: seq<Conn>, events: seq<Event>, k: nat)
    requires IsRun(states, events) && k < |states|
    ensures var q := states[k].queues;
            && D.Flat(q.batches) + D.Held(q.pc) + q.signals == q.submitted
            && forall b :: 0 <= b < |q.batches| ==> D.SentOf(q.trace, b) <= q.batches[b].signals
  {
    RunKeepsInv(states, events, k);
    hide D.SentOf;
  }

  // --- method calls ---------------------------------------------------------

  /** do_call_method and do_emit_signal use the connection only while there is one. */
  lemma UsesConnection(states: seq<Conn>, events: seq<Event>, k: nat)
    requires IsRun(states, events) && k < |states| && states[k].queues.pc != D.Loop
    ensures states[k].life.connected && states[k].life.refs == 1
  {
    RunKeepsInv(states, events, k);
  }

  /**
   * Calls are issued in the order of submission and at most once; an issued call either waits for its reply
   * or has been freed once: by Clear if nobody wants a reply, by do_call_reply otherwise.
   */
  lemma CallOwnership(states: seq<Conn>, events: seq<Event>, k: nat, c: D.Call)
    requires IsRun(states, events) && k < |states|
    ensures var q := states[k].queues;
            && q.issued + q.calls == q.submittedCalls
            && multiset(q.issued)[c] + multiset(q.calls)[c] <= 1
            && multiset(q.calls)[c] + multiset(q.awaiting)[c] + multiset(q.cleared)[c] + multiset(q.replied)[c]
               == (if c in q.submittedCalls then 1 else 0)
            && (c in q.cleared ==> !c.hasReply) && (c in q.replied || c in q.awaiting ==> c.hasReply)
  {
    RunKeepsInv(states, events, k);
    var q := states[k].queues;
    hide L.Inv, D.OrderInv, D.WorkerInv, D.HandlerInv;
    DistinctMultiplicity(q.submittedCalls, c);
    assert multiset(q.submittedCalls) == multiset(q.issued) + multiset(q.calls);
    assert (multiset(q.awaiting) + multiset(q.cleared) + multiset(q.replied))[c] == multiset(q.issued)[c];
  }

  /** The reply of a call arrives. */
  predicate OwnReply(c: Conn, e: Event, call: D.Call) {
    e.QueueEvent? && e.queue.Reply? && e.queue.i < |c.queues.awaiting| && c.queues.awaiting[e.queue.i] == call
  }

  lemma AwaitingStep(q: D.Queues, e: D.Event, status: nat, disconnectStatus: nat)
    requires D.Enabled(q, e)
    ensures var r := D.Step(q, e, status, disconnectStatus);
            if e.Reply? then
              && r.awaiting == q.awaiting[..e.i] + q.awaiting[e.i + 1..] && r.replied == q.replied + [q.awaiting[e.i]]
              && r.(awaiting := q.awaiting, replied := q.replied) == q
            else q.awaiting <= r.awaiting && r.replied == q.replied
  {
    hide D.Flat;
  }

  /** Element i leaves a sequence in which it stands once. */
  lemma LeavesOnce<T>(s: seq<T>, i: nat, r: seq<T>, x: T)
    requires i < |s| && multiset(s)[s[i]] <= 1 && r == s[..i] + s[i + 1..] && x in s
    ensures x in r <==> x != s[i]
    ensures x == s[i] ==> exists a, b :: s == a + [x] + b && r == a + b
  {
    assert s == s[..i] + [s[i]] + s[i + 1..];
    assert multiset(s) == multiset(s[..i]) + multiset{s[i]} + multiset(s[i + 1..]);
  }

  /** A reply frees its own call and no other: the others go on waiting, in order, and so do all in every other step. */
  lemma ReplyFreesItsCall(states: seq<Conn>, events: seq<Event>, k: nat, call: D.Call)
    requires IsRun(states, events) && k < |events| && call in states[k].queues.awaiting
    ensures var q, r := states[k].queues, states[k + 1].queues;
            if OwnReply(states[k], events[k], call)
            then && call !in r.awaiting && r.replied == q.replied + [call]
                 && exists a, b :: q.awaiting == a + [call] + b && r.awaiting == a + b
            else call in r.awaiting
    ensures (forall c :: !OwnReply(states[k], events[k], c)) ==>
              states[k].queues.awaiting <= states[k + 1].queues.awaiting
              && states[k + 1].queues.replied == states[k].queues.replied
  {
    hide L.Inv, L.Step, L.Enabled, D.Inv, D.Step, D.Enabled;
    if events[k].QueueEvent? {
      AwaitingStep(states[k].queues, events[k].queue, states[k].life.status, states[k].life.disconnectStatus);
      if events[k].queue.Reply? {
        var i, awaiting := events[k].queue.i, states[k].queues.awaiting;
        ReplyWaits(states[k], i);
        CallOwnership(states, events, k, awaiting[i]);
        hide IsRun;
        LeavesOnce(awaiting, i, states[k + 1].queues.awaiting, call);
        assert OwnReply(states[k], events[k], awaiting[i]);
      }
    }
  }

  lemma ReplyWaits(c: Conn, i: nat)
    requires Enabled(c, QueueEvent(D.Reply(i)))
    ensures i < |c.queues.awaiting|
  {
  }

  /** A call that waits goes on waiting until its own reply arrives, and then it has been freed. */
  lemma {:induction false} WaitsForItsReply(states: seq<Conn>, events: seq<Event>, j: nat, k: nat, call: D.Call)
    requires IsRun(states, events) && j <= k < |states| && call in states[j].queues.awaiting
    ensures var q := states[k].queues; call in q.awaiting || call in q.replied
    ensures call in states[k].queues.awaiting <==> forall i :: j <= i < k ==> !OwnReply(states[i], events[i], call)
  {
    hide Enabled, Step, OwnReply;
    CallOwnership(states, events, k, call);
    if j < k {
      WaitsForItsReply(states, events, j, k - 1, call);
      if call in states[k - 1].queues.awaiting {
        ReplyFreesItsCall(states, events, k - 1, call);
      }
      RepliedStays(states, events, k - 1);
    }
  }

  lemma RepliedStays(states: seq<Conn>, events: seq<Event>, k: nat)
    requires IsRun(states, events) && k < |events|
    ensures states[k].queues.replied <= states[k + 1].queues.replied
  {
    hide L.Step, L.Enabled, D.Step, D.Enabled;
    if events[k].QueueEvent? {
      AwaitingStep(states[k].queues, events[k].queue, states[k].life.status, states[k].life.disconnectStatus);
    }
  }
}
