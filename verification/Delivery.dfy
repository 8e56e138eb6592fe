/**
 * The signal and method-call queues of cDBusConnection (connection.c) as a transition system. Emitting,
 * calling and flushing threads, the main loop and the worker threads take steps in any order; what runs
 * under _flush_mutex is one step.
 */
module Delivery {
  import opened Filters
  import opened Sequences

  /** A cDBusMethodCall; its id stands for the object's identity, as the numbers of signals do. */
  datatype Call = Call(id: nat, hasReply: bool)

  /** A worker's list of signals and how many of them it has sent. */
  datatype Batch = Batch(signals: seq<nat>, sent: nat)

  /** Where the main loop is inside do_emit_signal and do_call_method. */
  datatype MainPc =
    | Loop
    | EmitArmed                       // past the checks, before the drain
    | EmitHolding(signals: seq<nat>)  // past the drain, before the push to the thread pool
    | CallArmed                       // past the checks, before the calls

  /** Where the one thread that calls Flush is. */
  datatype FlushPc = NotFlushing | AtCheck | Sleeping(notified: bool) | Returned(ok: bool)

  datatype Queues = Queues(
    signals: seq<nat>,          // _signals
    calls: seq<Call>,           // _method_calls
    emitSources: nat,           // attached do_emit_signal sources that are not being dispatched
    callSources: nat,           // the same for do_call_method
    pc: MainPc,
    batches: seq<Batch>,
    awaiting: seq<Call>,        // calls whose do_call_reply is still to come
    flusher: FlushPc,
    // what has happened so far
    submitted: seq<nat>,        // arguments of EmitSignal
    trace: seq<(nat, nat)>,     // signals sent, each with its batch
    submittedCalls: seq<Call>,  // arguments of CallMethod
    issued: seq<Call>,          // given to g_dbus_connection_call
    cleared: seq<Call>,         // freed by Clear
    replied: seq<Call>,         // freed by do_call_reply
    strandedSignals: bool,      // do_emit_signal has seen a disconnect
    strandedCalls: bool)

  datatype Event =
    | EmitSignal(signal: nat)
    | CallMethod(call: Call)
    | DispatchEmit
    | EmitDrain
    | EmitPush
    | WorkerSend(k: nat)
    | DispatchCall
    | CallDrain
    | Reply(i: nat)
    | FlushCall
    | FlushCheck
    | FlushWake
    | FlushReturn

  function Empty(): Queues {
    Queues([], [], 0, 0, Loop, [], [], NotFlushing, [], [], [], [], [], [], false, false)
  }

  /** Selects the calls that want a reply, or those that do not. */
  function Wants(hasReply: bool): Call -> bool {
    (c: Call) => c.hasReply == hasReply
  }

  /** When a step can happen. Each signal and each call is handed over once. */
  predicate Enabled(q: Queues, e: Event) {
    match e
    case EmitSignal(s) => s !in q.submitted
    case CallMethod(c) => forall d | d in q.submittedCalls :: d.id != c.id
    case DispatchEmit => q.pc == Loop && q.emitSources > 0
    case EmitDrain => q.pc == EmitArmed
    case EmitPush => q.pc.EmitHolding?
    case WorkerSend(k) => k < |q.batches| && q.batches[k].sent < |q.batches[k].signals|
    case DispatchCall => q.pc == Loop && q.callSources > 0
    case CallDrain => q.pc == CallArmed
    case Reply(i) => q.pc == Loop && i < |q.awaiting|
    case FlushCall => q.flusher == NotFlushing
    case FlushCheck => q.flusher == AtCheck
    case FlushWake => q.flusher.Sleeping?  // also spurious
    case FlushReturn => q.flusher.Returned?
  }

  /** g_cond_signal */
  function Notify(f: FlushPc): FlushPc {
    if f.Sleeping? then Sleeping(true) else f
  }

  function EmitSignalStep(q: Queues, s: nat): Queues {
    q.(signals := q.signals + [s], submitted := q.submitted + [s],
       emitSources := q.emitSources + if q.signals == [] then 1 else 0)
  }

  function CallMethodStep(q: Queues, c: Call): Queues {
    q.(calls := q.calls + [c], submittedCalls := q.submittedCalls + [c],
       callSources := q.callSources + if q.calls == [] then 1 else 0)
  }

  /** do_emit_signal up to its checks: gone while disconnecting, again later while not connected. */
  function DispatchEmitStep(q: Queues, status: nat, disconnectStatus: nat): Queues
    requires q.emitSources > 0
  {
    if disconnectStatus > 0 then q.(emitSources := q.emitSources - 1, strandedSignals := true)
    else if status < 3 then q
    else q.(emitSources := q.emitSources - 1, pc := EmitArmed)
  }

  function EmitDrainStep(q: Queues): Queues {
    q.(signals := [], flusher := Notify(q.flusher), pc := if q.signals == [] then Loop else EmitHolding(q.signals))
  }

  function EmitPushStep(q: Queues): Queues
    requires q.pc.EmitHolding?
  {
    q.(batches := q.batches + [Batch(q.pc.signals, 0)], pc := Loop)
  }

  function WorkerSendStep(q: Queues, k: nat): Queues
    requires k < |q.batches| && q.batches[k].sent < |q.batches[k].signals|
  {
    var b := q.batches[k];
    q.(trace := q.trace + [(k, b.signals[b.sent])], batches := q.batches[k := b.(sent := b.sent + 1)])
  }

  function DispatchCallStep(q: Queues, status: nat, disconnectStatus: nat): Queues
    requires q.callSources > 0
  {
    if disconnectStatus > 0 then q.(callSources := q.callSources - 1, strandedCalls := true)
    else if status < 3 then q
    else q.(callSources := q.callSources - 1, pc := CallArmed)
  }

  /** Every call is issued in order; Clear frees those nobody waits for. */
  function CallDrainStep(q: Queues): Queues {
    q.(issued := q.issued + q.calls, awaiting := q.awaiting + Filter(q.calls, Wants(true)),
       cleared := q.cleared + Filter(q.calls, Wants(false)), calls := [], flusher := Notify(q.flusher), pc := Loop)
  }

  function ReplyStep(q: Queues, i: nat): Queues
    requires i < |q.awaiting|
  {
    q.(awaiting := RemoveAt(q.awaiting, i), replied := q.replied + [q.awaiting[i]])
  }

  function FlushCheckStep(q: Queues): Queues {
    q.(flusher := if q.signals == [] && q.calls == [] then Returned(true) else Sleeping(false))
  }

  /** One step, at the given values of _connect_status and _disconnect_status. */
  function Step(q: Queues, e: Event, status: nat, disconnectStatus: nat): Queues
    requires Enabled(q, e)
  {
    match e
    case EmitSignal(s) => EmitSignalStep(q, s)
    case CallMethod(c) => CallMethodStep(q, c)
    case DispatchEmit => DispatchEmitStep(q, status, disconnectStatus)
    case EmitDrain => EmitDrainStep(q)
    case EmitPush => EmitPushStep(q)
    case WorkerSend(k) => WorkerSendStep(q, k)
    case DispatchCall => DispatchCallStep(q, status, disconnectStatus)
    case CallDrain => CallDrainStep(q)
    case Reply(i) => ReplyStep(q, i)
    case FlushCall => q.(flusher := if status == 0 then Returned(false) else AtCheck)
    case FlushCheck => FlushCheckStep(q)
    case FlushWake => q.(flusher := AtCheck)
    case FlushReturn => q.(flusher := NotFlushing)
  }

  // --- whole callbacks, when nobody comes in between ------------------------

  /** do_emit_signal */
  function EmitCallback(q: Queues, status: nat, disconnectStatus: nat): Queues
    requires q.pc == Loop && q.emitSources > 0
  {
    var checked := DispatchEmitStep(q, status, disconnectStatus);
    if checked.pc == Loop then checked else
      var drained := EmitDrainStep(checked);
      if drained.pc == Loop then drained else EmitPushStep(drained)
  }

  /** do_call_method */
  function CallCallback(q: Queues, status: nat, disconnectStatus: nat): Queues
    requires q.pc == Loop && q.callSources > 0
  {
    var checked := DispatchCallStep(q, status, disconnectStatus);
    if checked.pc == Loop then checked else CallDrainStep(checked)
  }

  /** do_work */
  function WorkerRun(q: Queues, k: nat): Queues
    requires k < |q.batches|
    decreases if q.batches[k].sent < |q.batches[k].signals| then |q.batches[k].signals| - q.batches[k].sent else 0
  {
    if q.batches[k].sent < |q.batches[k].signals| then WorkerRun(WorkerSendStep(q, k), k) else q
  }

  /** When nobody comes in between, a callback is the main loop's steps until it is back in its loop. */
  lemma CallbacksAreSteps(q: Queues, status: nat, disconnectStatus: nat)
    requires q.pc == Loop
    ensures q.emitSources > 0 ==>
              var a := Step(q, DispatchEmit, status, disconnectStatus);
              if !Enabled(a, EmitDrain) then EmitCallback(q, status, disconnectStatus) == a else
                var b := Step(a, EmitDrain, status, disconnectStatus);
                EmitCallback(q, status, disconnectStatus) ==
                if Enabled(b, EmitPush) then Step(b, EmitPush, status, disconnectStatus) else b
    ensures q.callSources > 0 ==>
              var a := Step(q, DispatchCall, status, disconnectStatus);
              CallCallback(q, status, disconnectStatus) ==
              if Enabled(a, CallDrain) then Step(a, CallDrain, status, disconnectStatus) else a
  {
  }

  // --- where the signals are ------------------------------------------------

  function Flat(batches: seq<Batch>): seq<nat> {
    if batches == [] then [] else Flat(batches[..|batches| - 1]) + batches[|batches| - 1].signals
  }

  /** What a worker has not sent yet. */
  function Unsent(batches: seq<Batch>): multiset<nat> {
    if batches == [] then multiset{} else
      Unsent(batches[..|batches| - 1]) + Rest(batches[|batches| - 1])
  }

  function Rest(b: Batch): multiset<nat> {
    if b.sent <= |b.signals| then multiset(b.signals[b.sent..]) else multiset{}
  }

  function Sent(trace: seq<(nat, nat)>): multiset<nat> {
    if trace == [] then multiset{} else Sent(trace[..|trace| - 1]) + multiset{trace[|trace| - 1].1}
  }

  /** What has been sent of batch k, in the order of sending. */
  function SentOf(trace: seq<(nat, nat)>, k: nat): seq<nat> {
    if trace == [] then [] else
      SentOf(trace[..|trace| - 1], k) + if trace[|trace| - 1].0 == k then [trace[|trace| - 1].1] else []
  }

  function Held(pc: MainPc): seq<nat> {
    if pc.EmitHolding? then pc.signals else []
  }

  /** The batches one after the other, then the queue: exactly the order of submission. */
  ghost predicate OrderInv(q: Queues) {
    Flat(q.batches) + Held(q.pc) + q.signals == q.submitted && Distinct(q.submitted)
  }

  /** Each worker sends its batch in order. */
  ghost predicate InOrder(batches: seq<Batch>, trace: seq<(nat, nat)>) {
    forall k :: 0 <= k < |batches| ==>
                  batches[k].sent <= |batches[k].signals| && SentOf(trace, k) == batches[k].signals[..batches[k].sent]
  }

  ghost predicate WorkerInv(q: Queues) {
    && InOrder(q.batches, q.trace)
    && (forall i :: 0 <= i < |q.trace| ==> q.trace[i].0 < |q.batches|)
    && Sent(q.trace) + Unsent(q.batches) == multiset(Flat(q.batches))
  }

  /** The do_emit_signal sources that have not yet passed their drain, and the same for do_call_method. */
  function EmitHandlers(q: Queues): nat {
    q.emitSources + if q.pc == EmitArmed then 1 else 0
  }

  function CallHandlers(q: Queues): nat {
    q.callSources + if q.pc == CallArmed then 1 else 0
  }

  ghost predicate HandlerInv(q: Queues) {
    && EmitHandlers(q) == (if q.signals != [] && !q.strandedSignals then 1 else 0)
    && CallHandlers(q) == (if q.calls != [] && !q.strandedCalls then 1 else 0)
    && (q.strandedSignals ==> q.signals != []) && (q.strandedCalls ==> q.calls != [])
    && (q.pc.EmitHolding? ==> q.pc.signals != [])
  }

  ghost predicate DistinctIds(calls: seq<Call>) {
    forall i, j :: 0 <= i < j < |calls| ==> calls[i].id != calls[j].id
  }

  /** Calls are issued in the order of submission; each issued one is waiting or was freed, and by whom. */
  ghost predicate CallInv(q: Queues) {
    && q.issued + q.calls == q.submittedCalls && DistinctIds(q.submittedCalls)
    && multiset(q.awaiting) + multiset(q.cleared) + multiset(q.replied) == multiset(q.issued)
    && (forall c | c in q.awaiting :: c.hasReply) && (forall c | c in q.replied :: c.hasReply)
    && (forall c | c in q.cleared :: !c.hasReply)
  }

  /** Nobody sleeps without a reason. */
  ghost predicate FlushInv(q: Queues) {
    q.flusher == Sleeping(false) ==> q.signals != [] || q.calls != []
  }

  ghost predicate Inv(q: Queues) {
    OrderInv(q) && WorkerInv(q) && HandlerInv(q) && CallInv(q) && FlushInv(q)
  }

  lemma EmptyInv()
    ensures Inv(Empty())
  {
    hide Filter;
    var q := Empty();
    assert Flat(q.batches) == [] && Unsent(q.batches) == multiset{} && Sent(q.trace) == multiset{};
    hide Flat, Unsent, Sent, SentOf;
  }

  // --- every step keeps it --------------------------------------------------

  lemma FlatPush(batches: seq<Batch>, b: Batch)
    ensures Flat(batches + [b]) == Flat(batches) + b.signals
    ensures Unsent(batches + [b]) == Unsent(batches) + Rest(b)
  {
  }

  /** A sent signal stays in its batch. */
  lemma {:induction false} SendKeepsFlat(batches: seq<Batch>, k: nat, b: Batch)
    requires k < |batches| && b.signals == batches[k].signals
    ensures Flat(batches[k := b]) == Flat(batches)
  {
    var n := |batches| - 1;
    assert batches[k := b][..n] == if k < n then batches[..n][k := b] else batches[..n];
    if k < n {
      SendKeepsFlat(batches[..n], k, b);
    }
  }

  lemma AddLast<T(!new)>(a: multiset<T>, x: multiset<T>, b: multiset<T>, y: multiset<T>, last: multiset<T>)
    ensures a + x == b + y <==> (a + last) + x == (b + last) + y
  {
    if (a + last) + x == (b + last) + y {
      forall e: T ensures (a + x)[e] == (b + y)[e] {
        assert ((a + last) + x)[e] == ((b + last) + y)[e];
      }
      assert a + x == b + y;
    } else {
      var e :| ((a + last) + x)[e] != ((b + last) + y)[e];
      assert (a + x)[e] != (b + y)[e];
    }
  }

  lemma {:induction false} UnsentUpdate(batches: seq<Batch>, k: nat, b: Batch)
    requires k < |batches|
    ensures Unsent(batches) + Rest(b) == Unsent(batches[k := b]) + Rest(batches[k])
  {
    hide Rest;
    var n := |batches| - 1;
    var after := batches[k := b];
    assert Unsent(batches) == Unsent(batches[..n]) + Rest(batches[n]);
    assert Unsent(after) == Unsent(after[..n]) + Rest(after[n]);
    if k < n {
      UnsentUpdate(batches[..n], k, b);
      assert after[..n] == batches[..n][k := b];
      AddLast(Unsent(batches[..n]), Rest(b), Unsent(after[..n]), Rest(batches[k]), Rest(batches[n]));
    } else {
      assert after[..n] == batches[..n];
    }
  }

  lemma RestStep(b: Batch)
    requires b.sent < |b.signals|
    ensures Rest(b) == multiset{b.signals[b.sent]} + Rest(b.(sent := b.sent + 1))
  {
    assert b.signals[b.sent..] == [b.signals[b.sent]] + b.signals[b.sent + 1..];
  }

  /** It only leaves the unsent ones. */
  lemma SendOne(batches: seq<Batch>, k: nat)
    requires k < |batches| && batches[k].sent < |batches[k].signals|
    ensures var b := batches[k];
            Unsent(batches) == Unsent(batches[k := b.(sent := b.sent + 1)]) + multiset{b.signals[b.sent]}
  {
    hide Rest, Unsent;
    var b := batches[k];
    var c := b.(sent := b.sent + 1);
    UnsentUpdate(batches, k, c);
    RestStep(b);
    AddLast(Unsent(batches), multiset{}, Unsent(batches[k := c]), multiset{b.signals[b.sent]}, Rest(c));
  }

  lemma TracePush(trace: seq<(nat, nat)>, k: nat, s: nat, j: nat)
    ensures SentOf(trace + [(k, s)], j) == SentOf(trace, j) + if k == j then [s] else []
    ensures Sent(trace + [(k, s)]) == Sent(trace) + multiset{s}
  {
  }

  lemma {:induction false} NothingSentYet(trace: seq<(nat, nat)>, k: nat)
    requires forall i :: 0 <= i < |trace| ==> trace[i].0 < k
    ensures SentOf(trace, k) == []
  {
    if trace != [] {
      NothingSentYet(trace[..|trace| - 1], k);
    }
  }

  lemma SendKeepsOrder(batches: seq<Batch>, trace: seq<(nat, nat)>, k: nat)
    requires InOrder(batches, trace) && k < |batches| && batches[k].sent < |batches[k].signals|
    ensures var b := batches[k];
            InOrder(batches[k := b.(sent := b.sent + 1)], trace + [(k, b.signals[b.sent])])
  {
  }

  lemma WorkerSendKeepsInv(q: Queues, k: nat)
    requires WorkerInv(q) && k < |q.batches| && q.batches[k].sent < |q.batches[k].signals|
    ensures WorkerInv(WorkerSendStep(q, k)) && Flat(WorkerSendStep(q, k).batches) == Flat(q.batches)
  {
    hide InOrder, SentOf, Sent, Unsent, Flat;
    var b := q.batches[k];
    SendOne(q.batches, k);
    SendKeepsFlat(q.batches, k, b.(sent := b.sent + 1));
    TracePush(q.trace, k, b.signals[b.sent], k);
    SendKeepsOrder(q.batches, q.trace, k);
  }

  lemma EmitPushKeepsInv(q: Queues)
    requires OrderInv(q) && WorkerInv(q) && q.pc.EmitHolding?
    ensures OrderInv(EmitPushStep(q)) && WorkerInv(EmitPushStep(q))
  {
    hide SentOf, Sent, Unsent, Flat;
    var b := Batch(q.pc.signals, 0);
    FlatPush(q.batches, b);
    NothingSentYet(q.trace, |q.batches|);
    assert b.signals[0..] == b.signals;
  }

  /** Every call either wants a reply or does not. */
  lemma {:induction false} WantsSplits(calls: seq<Call>)
    ensures multiset(Filter(calls, Wants(true))) + multiset(Filter(calls, Wants(false))) == multiset(calls)
  {
    if calls != [] {
      WantsSplits(calls[1..]);
      assert calls == [calls[0]] + calls[1..];
    }
  }

  lemma {:induction false} FilterWants(calls: seq<Call>, hasReply: bool)
    ensures forall c | c in Filter(calls, Wants(hasReply)) :: c.hasReply == hasReply
  {
    if calls != [] {
      FilterWants(calls[1..], hasReply);
    }
  }

  lemma CallDrainKeepsInv(q: Queues)
    requires CallInv(q)
    ensures CallInv(CallDrainStep(q))
  {
    WantsSplits(q.calls);
    FilterWants(q.calls, true);
    FilterWants(q.calls, false);
    assert q.issued + q.calls + [] == q.submittedCalls;
  }

  lemma ReplyBalance(awaiting: seq<Call>, cleared: multiset<Call>, replied: seq<Call>, i: nat)
    requires i < |awaiting|
    ensures multiset(RemoveAt(awaiting, i)) + cleared + multiset(replied + [awaiting[i]])
            == multiset(awaiting) + cleared + multiset(replied)
    ensures forall d | d in RemoveAt(awaiting, i) :: d in awaiting
  {
    RemoveAtMultiset(awaiting, i);
    assert awaiting[i] in multiset(awaiting);
  }

  lemma ReplyKeepsInv(q: Queues, i: nat)
    requires CallInv(q) && i < |q.awaiting|
    ensures CallInv(ReplyStep(q, i))
  {
    hide DistinctIds, RemoveAt;
    ReplyBalance(q.awaiting, multiset(q.cleared), q.replied, i);
    assert q.awaiting[i] in q.awaiting;
  }

  lemma EmitSignalKeepsInv(q: Queues, s: nat)
    requires OrderInv(q) && HandlerInv(q) && s !in q.submitted
    ensures OrderInv(EmitSignalStep(q, s)) && HandlerInv(EmitSignalStep(q, s))
  {
    hide Flat, Held;
    assert Flat(q.batches) + Held(q.pc) + (q.signals + [s]) == Flat(q.batches) + Held(q.pc) + q.signals + [s];
    assert Distinct(q.submitted + [s]);
    hide Distinct;
  }

  lemma CallMethodKeepsInv(q: Queues, c: Call)
    requires CallInv(q) && HandlerInv(q) && Enabled(q, CallMethod(c))
    ensures CallInv(CallMethodStep(q, c)) && HandlerInv(CallMethodStep(q, c))
  {
  }

  lemma EmitDrainKeepsInv(q: Queues)
    requires OrderInv(q) && HandlerInv(q) && q.pc == EmitArmed
    ensures OrderInv(EmitDrainStep(q)) && HandlerInv(EmitDrainStep(q))
  {
  }

  /** Parts of the invariant speak of parts of the state. */
  lemma Frame(q: Queues, r: Queues)
    ensures (OrderInv(q) && Flat(r.batches) == Flat(q.batches) && Held(r.pc) == Held(q.pc) && r.signals == q.signals
             && r.submitted == q.submitted) ==> OrderInv(r)
    ensures WorkerInv(q) && r.batches == q.batches && r.trace == q.trace ==> WorkerInv(r)
    ensures (CallInv(q) && r.calls == q.calls && r.issued == q.issued && r.submittedCalls == q.submittedCalls
             && r.awaiting == q.awaiting && r.cleared == q.cleared && r.replied == q.replied) ==> CallInv(r)
  {
  }

  lemma EmitStepKeepsInv(q: Queues, e: Event, status: nat, disconnectStatus: nat)
    requires Inv(q) && Enabled(q, e)
    requires e.EmitSignal? || e.DispatchEmit? || e.EmitDrain? || e.EmitPush? || e.WorkerSend?
    ensures Inv(Step(q, e, status, disconnectStatus))
  {
    hide OrderInv, WorkerInv, CallInv, Flat;
    Frame(q, Step(q, e, status, disconnectStatus));
    match e
    case EmitSignal(s) => EmitSignalKeepsInv(q, s);
    case EmitDrain => EmitDrainKeepsInv(q);
    case EmitPush => EmitPushKeepsInv(q);
    case WorkerSend(k) => WorkerSendKeepsInv(q, k);
    case DispatchEmit =>
  }

  lemma CallStepKeepsInv(q: Queues, e: Event, status: nat, disconnectStatus: nat)
    requires Inv(q) && Enabled(q, e)
    requires e.CallMethod? || e.DispatchCall? || e.CallDrain? || e.Reply?
    ensures Inv(Step(q, e, status, disconnectStatus))
  {
    hide OrderInv, WorkerInv, CallInv, Filter;
    Frame(q, Step(q, e, status, disconnectStatus));
    match e
    case CallMethod(c) => CallMethodKeepsInv(q, c);
    case CallDrain => CallDrainKeepsInv(q);
    case Reply(i) => ReplyKeepsInv(q, i);
    case DispatchCall =>
  }

  lemma FlushStepKeepsInv(q: Queues, e: Event, status: nat, disconnectStatus: nat)
    requires Inv(q) && Enabled(q, e)
    requires e.FlushCall? || e.FlushCheck? || e.FlushWake? || e.FlushReturn?
    ensures Inv(Step(q, e, status, disconnectStatus))
  {
    hide OrderInv, WorkerInv, CallInv;
    Frame(q, Step(q, e, status, disconnectStatus));
  }

  /** Every step of every thread keeps the invariant, whatever the connection status is at that moment. */
  lemma StepKeepsInv(q: Queues, e: Event, status: nat, disconnectStatus: nat)
    requires Inv(q) && Enabled(q, e)
    ensures Inv(Step(q, e, status, disconnectStatus))
  {
    hide Inv, Enabled, Step;
    if e.EmitSignal? || e.DispatchEmit? || e.EmitDrain? || e.EmitPush? || e.WorkerSend? {
      EmitStepKeepsInv(q, e, status, disconnectStatus);
    } else if e.CallMethod? || e.DispatchCall? || e.CallDrain? || e.Reply? {
      CallStepKeepsInv(q, e, status, disconnectStatus);
    } else {
      FlushStepKeepsInv(q, e, status, disconnectStatus);
    }
  }

  lemma EmitSignalInv(q: Queues, s: nat)
    ensures Inv(q) && s !in q.submitted ==> Inv(EmitSignalStep(q, s))
  {
    if Inv(q) && s !in q.submitted {
      StepKeepsInv(q, EmitSignal(s), 0, 0);
      hide Inv;
    }
  }

  lemma CallMethodInv(q: Queues, c: Call)
    ensures Inv(q) && Enabled(q, CallMethod(c)) ==> Inv(CallMethodStep(q, c))
  {
    if Inv(q) && Enabled(q, CallMethod(c)) {
      StepKeepsInv(q, CallMethod(c), 0, 0);
      hide Inv;
    }
  }

  lemma ReplyInv(q: Queues, i: nat)
    requires q.pc == Loop && i < |q.awaiting|
    ensures Inv(q) ==> Inv(ReplyStep(q, i))
  {
    if Inv(q) {
      StepKeepsInv(q, Reply(i), 0, 0);
      hide Inv;
    }
  }

  /** Run as a whole while connected, a handler empties its queue in order and wakes up a flushing thread. */
  lemma CallbacksDrain(q: Queues, status: nat)
    requires HandlerInv(q) && q.pc == Loop && status >= 3 && !q.strandedSignals && !q.strandedCalls
    ensures (q.emitSources > 0 <==> q.signals != []) && (q.callSources > 0 <==> q.calls != [])
    ensures q.emitSources > 0 ==>
              var r := EmitCallback(q, status, 0);
              && HandlerInv(r) && r.pc == Loop && r.flusher == Notify(q.flusher)
              && r.signals == [] && Flat(r.batches) == Flat(q.batches) + q.signals
              && r.calls == q.calls && r.issued == q.issued && !r.strandedSignals && !r.strandedCalls
    ensures q.callSources > 0 ==>
              var r := CallCallback(q, status, 0);
              && HandlerInv(r) && r.pc == Loop && r.flusher == Notify(q.flusher)
              && r.calls == [] && r.issued == q.issued + q.calls
              && r.signals == q.signals && r.batches == q.batches && !r.strandedSignals && !r.strandedCalls
  {
  }

  /** A worker that runs to its end has sent exactly its batch, in order, and touched no other. */
  lemma {:induction false} WorkerRunMeaning(q: Queues, k: nat)
    requires WorkerInv(q) && k < |q.batches|
    ensures var r := WorkerRun(q, k);
            && WorkerInv(r) && SentOf(r.trace, k) == q.batches[k].signals
            && r == q.(trace := r.trace, batches := q.batches[k := Batch(q.batches[k].signals, |q.batches[k].signals|)])
    decreases |q.batches[k].signals| - q.batches[k].sent
  {
    hide SentOf, Sent, Unsent, Flat;
    var b := q.batches[k];
    if b.sent < |b.signals| {
      WorkerSendKeepsInv(q, k);
      WorkerRunMeaning(WorkerSendStep(q, k), k);
    }
  }
}
