/**
 * cDBusConnection (connection.c) as an object: its calls and callbacks change its fields the way the
 * transition systems Lifecycle and Delivery say.
 */
module DBusConnection {
  import opened CList
  import opened ListWalk
  import opened Filters
  import opened Options
  import opened Sequences
  import opened Registration
  import L = Lifecycle
  import R = LifecycleRuns
  import D = Delivery

  /** What is pending in the GMainContext: idle sources, timers and asynchronous operations, by callback. */
  datatype MainContext = MainContext(
    connects: nat,          // do_connect
    timers: nat,            // do_reconnect
    busGets: nat,           // on_bus_get
    nameLostCloses: nat,    // on_name_lost_close
    flushSources: nat,      // do_flush
    flushes: nat,           // on_flush
    disconnects: nat,       // do_disconnect
    disconnectCloses: nat)  // on_disconnect_close

  /** What is issued, and what waits, grows by one. */
  lemma IssuedNext(issued: seq<D.Call>, awaiting: seq<D.Call>, all: seq<D.Call>, n: nat)
    requires n < |all|
    ensures issued + all[..n + 1] == issued + all[..n] + [all[n]]
    ensures awaiting + Filter(all[..n + 1], D.Wants(true)) ==
            awaiting + Filter(all[..n], D.Wants(true)) + if all[n].hasReply then [all[n]] else []
  {
    assert all[..n + 1] == all[..n] + [all[n]];
    FilterAppend(all[..n], all[n], D.Wants(true));
  }

  class Connection {
    const busType: L.BusKind
    const named: bool
    const interfaces: seq<nat>
    var registrationIds: seq<Option<seq<nat>>>  // of each object
    var registry: Registry                      // kept by GDBus
    var connection: bool
    var refs: int                               // references to it
    var owner: bool
    var reconnect: bool
    var connectStatus: nat
    var disconnectStatus: nat
    const signals: ListBase<nat>
    const methodCalls: ListBase<D.Call>
    ghost var pool: seq<D.Batch>                // the lists given to the worker threads
    var awaiting: seq<D.Call>
    var flusher: D.FlushPc
    var context: MainContext
    var emitSources: nat                        // do_emit_signal, also in the GMainContext
    var callSources: nat                        // do_call_method
    ghost var started: bool
    // what has happened to the signals and calls so far
    ghost var submitted: seq<nat>
    ghost var trace: seq<(nat, nat)>
    ghost var submittedCalls: seq<D.Call>
    ghost var issued: seq<D.Call>
    ghost var cleared: seq<D.Call>
    ghost var replied: seq<D.Call>
    ghost var strandedSignals: bool
    ghost var strandedCalls: bool

    ghost function Life(): L.Life
      reads `registrationIds, `registry, `connection, `refs, `owner, `reconnect, `connectStatus, `disconnectStatus
      reads `context, `started
    {
      L.Life(busType, named, interfaces, connection, connectStatus, reconnect, disconnectStatus, owner, registrationIds,
             registry, refs, started, context.connects, context.timers, context.busGets, context.nameLostCloses,
             context.flushSources, context.flushes, context.disconnects, context.disconnectCloses)
    }

    ghost predicate Valid()
      reads signals, signals.nodes, methodCalls, methodCalls.nodes
    {
      signals.Valid() && methodCalls.Valid()
    }

    ghost function Queues(): D.Queues
      reads signals`nodes, methodCalls`nodes, `emitSources, `callSources, `pool, `awaiting, `flusher, `submitted, `trace
      reads `submittedCalls, `issued, `cleared, `replied, `strandedSignals, `strandedCalls
    {
      D.Queues(Values(signals.nodes), Values(methodCalls.nodes), emitSources, callSources, D.Loop, pool, awaiting,
               flusher, submitted, trace, submittedCalls, issued, cleared, replied, strandedSignals, strandedCalls)
    }

    constructor (busType: L.BusKind, named: bool, interfaces: seq<nat>)
      ensures Life() == L.Created(busType, named, interfaces) && Queues() == D.Empty()
      ensures Valid() && fresh(signals) && fresh(methodCalls)
      ensures !connection && !owner && connectStatus == disconnectStatus == 0 && (reconnect <==> busType == L.TypedBus)
      ensures context == MainContext(0, 0, 0, 0, 0, 0, 0, 0) && registrationIds == NoIds(|interfaces|)
    {
      this.busType, this.named, this.interfaces := busType, named, interfaces;
      registrationIds, registry := seq(|interfaces|, _ => None), Registry(1, {});
      connection, refs, owner, reconnect := false, 0, false, busType == L.TypedBus;
      connectStatus, disconnectStatus := 0, 0;
      signals := new ListBase<nat>();
      methodCalls := new ListBase<D.Call>();
      pool, awaiting, flusher := [], [], D.NotFlushing;
      context := MainContext(0, 0, 0, 0, 0, 0, 0, 0);
      emitSources, callSources := 0, 0;
      started := false;
      submitted, trace, submittedCalls, issued, cleared, replied := [], [], [], [], [], [];
      strandedSignals, strandedCalls := false, false;
    }

    // --- signals and method calls -------------------------------------------

    method EmitSignal(signal: ListObject<nat>)
      requires Valid() && signal.Unlinked() && signal !in signals.nodes
      modifies signals, signals.nodes, signal, `emitSources, `submitted
      ensures Valid() && signals.nodes == old(signals.nodes) + [signal]
      ensures Queues() == D.EmitSignalStep(old(Queues()), signal.value)
      ensures old(D.Inv(Queues()) && signal.value !in submitted) ==> D.Inv(Queues())
    {
      hide D.Inv, ListBase.Linked;
      D.EmitSignalInv(Queues(), signal.value);
      var addHandler := signals.count == 0;
      signals.Add(signal, null);
      if addHandler {
        emitSources := emitSources + 1;
      }
      submitted := submitted + [signal.value];
    }

    method CallMethod(call: ListObject<D.Call>)
      requires Valid() && call.Unlinked() && call !in methodCalls.nodes
      modifies methodCalls, methodCalls.nodes, call, `callSources, `submittedCalls
      ensures Valid() && methodCalls.nodes == old(methodCalls.nodes) + [call]
      ensures Queues() == D.CallMethodStep(old(Queues()), call.value)
      ensures old(D.Inv(Queues()) && D.Enabled(Queues(), D.CallMethod(call.value))) ==> D.Inv(Queues())
    {
      hide D.Inv, D.Enabled, ListBase.Linked;
      D.CallMethodInv(Queues(), call.value);
      var addHandler := methodCalls.count == 0;
      methodCalls.Add(call, null);
      if addHandler {
        callSources := callSources + 1;
      }
      submittedCalls := submittedCalls + [call.value];
    }

    /** do_emit_signal; GLib removes its source unless it returns true. */
    method DoEmitSignal() returns (again: bool)
      requires Valid() && emitSources > 0
      modifies signals, signals.nodes, `pool, `flusher, `strandedSignals
      ensures Valid() && forall x | x in signals.nodes :: x in old(signals.nodes)
      ensures again <==> disconnectStatus == 0 && connectStatus < 3
      ensures var q := Queues();
              (if again then q else q.(emitSources := q.emitSources - 1))
              == D.EmitCallback(old(Queues()), connectStatus, disconnectStatus)
    {
      hide ListBase.Linked;
      if disconnectStatus > 0 {
        strandedSignals := true;
        return false;
      }
      if connectStatus < 3 {
        return true;
      }
      var list: ListBase?<nat> := null;
      if signals.count > 0 {
        list := MoveAll(signals);
      }
      flusher := D.Notify(flusher);
      if list != null {
        pool := pool + [D.Batch(Values(list.nodes), 0)];
      }
      return false;
    }

    /** do_work: a worker sends the signals of its list, which was pushed to the pool as batch k. */
    method DoWork(list: ListBase<nat>, ghost k: nat)
      requires k < |pool| && list.Valid() && pool[k] == D.Batch(Values(list.nodes), 0)
      modifies `pool, `trace
      ensures Queues() == D.WorkerRun(old(Queues()), k)
    {
      var s := list.objects;
      ghost var i, all := 0, Values(list.nodes);
      while s != null
        invariant i <= |all| && s == if i < |all| then list.nodes[i] else null
        invariant k < |pool| && pool[k] == D.Batch(all, i)
        invariant D.WorkerRun(Queues(), k) == D.WorkerRun(old(Queues()), k)
        decreases |all| - i
      {
        trace := trace + [(k, s.value)];
        pool := pool[k := D.Batch(all, i + 1)];
        s := s.next;
        i := i + 1;
      }
    }

    /** One round of do_call_method's loop. */
    method IssueOne(c: ListObject<D.Call>, ghost all: seq<D.Call>, ghost n: nat, ghost owned: seq<ListObject<D.Call>>)
      returns (next: ListObject?<D.Call>)
      requires methodCalls.Valid() && Dealing(methodCalls.nodes, c, all, n, D.Wants(false))
      requires forall x | x in methodCalls.nodes :: x in owned
      modifies methodCalls, owned, `awaiting, `issued
      ensures methodCalls.Valid() && forall x | x in methodCalls.nodes :: x in owned
      ensures n < |all| && Dealing(methodCalls.nodes, next, all, n + 1, D.Wants(false))
      ensures awaiting == old(awaiting) + if all[n].hasReply then [all[n]] else []
      ensures issued == old(issued) + [all[n]]
    {
      hide Dealing, ListBase.Valid;
      ghost var i := DealingNext(methodCalls.nodes, c, all, n, D.Wants(false));
      ghost var was := methodCalls.nodes;
      issued := issued + [c.value];
      next := methodCalls.Next(c, i);
      if c.value.hasReply {
        assert forall j :: 0 <= j < |was| ==> was[j] in was;
        methodCalls.Del(c);
        assert methodCalls.nodes == RemoveAt(was, i) && forall x | x in RemoveAt(was, i) :: x in was;
        awaiting := awaiting + [c.value];
      }
    }

    /** The loop of do_call_method: issues every call and keeps in the list those without a reply handler. */
    method IssueCalls()
      requires methodCalls.Valid()
      modifies methodCalls, methodCalls.nodes, `awaiting, `issued
      ensures methodCalls.Valid() && forall x | x in methodCalls.nodes :: x in old(methodCalls.nodes)
      ensures Values(methodCalls.nodes) == Filter(old(Values(methodCalls.nodes)), D.Wants(false))
      ensures awaiting == old(awaiting) + Filter(old(Values(methodCalls.nodes)), D.Wants(true))
      ensures issued == old(issued) + old(Values(methodCalls.nodes))
    {
      hide Filter, ListBase.Valid, Values, Dealing;
      ghost var n, all, owned := 0, Values(methodCalls.nodes), methodCalls.nodes;
      FilterNone(all, D.Wants(true));
      var c := methodCalls.First();
      DealingStarts(methodCalls.nodes, c, D.Wants(false));
      while c != null
        invariant methodCalls.Valid() && forall x | x in methodCalls.nodes :: x in owned
        invariant n <= |all| && Dealing(methodCalls.nodes, c, all, n, D.Wants(false))
        invariant awaiting == old(awaiting) + Filter(all[..n], D.Wants(true))
        invariant issued == old(issued) + all[..n]
        decreases |all| - n
      {
        c := IssueOne(c, all, n, owned);
        IssuedNext(old(issued), old(awaiting), all, n);
        n := n + 1;
      }
      DealingEnds(methodCalls.nodes, all, n, D.Wants(false));
      assert all[..n] == all;
    }

    /** The part of do_call_method under _flush_mutex. */
    method DrainCalls()
      requires methodCalls.Valid()
      modifies methodCalls, methodCalls.nodes, `awaiting, `flusher, `issued, `cleared
      ensures methodCalls.Valid() && methodCalls.nodes == []
      ensures Queues() == D.CallDrainStep(old(Queues()))
    {
      hide ListBase.Valid, Values, Filter;
      IssueCalls();
      assert forall j :: 0 <= j < |methodCalls.nodes| ==> methodCalls.nodes[j] in methodCalls.nodes;
      cleared := cleared + Values(methodCalls.nodes);
      var _ := methodCalls.Clear();
      assert Values(methodCalls.nodes) == [];
      flusher := D.Notify(flusher);
    }

    /** do_call_method; GLib removes its source unless it returns true. */
    method DoCallMethod() returns (again: bool)
      requires Valid() && callSources > 0
      modifies methodCalls, methodCalls.nodes, `awaiting, `flusher, `issued, `cleared, `strandedCalls
      ensures Valid() && forall x | x in methodCalls.nodes :: x in old(methodCalls.nodes)
      ensures again <==> disconnectStatus == 0 && connectStatus < 3
      ensures var q := Queues();
              (if again then q else q.(callSources := q.callSources - 1))
              == D.CallCallback(old(Queues()), connectStatus, disconnectStatus)
    {
      hide ListBase.Valid, Values, Filter;
      if disconnectStatus > 0 {
        strandedCalls := true;
        return false;
      }
      if connectStatus < 3 {
        return true;
      }
      DrainCalls();
      return false;
    }

    /** do_call_reply for the i-th call that waits. */
    method DoCallReply(i: nat)
      requires i < |awaiting|
      modifies `awaiting, `replied
      ensures Queues() == D.ReplyStep(old(Queues()), i)
      ensures replied == old(replied) + [old(awaiting)[i]] && awaiting == old(awaiting)[..i] + old(awaiting)[i + 1..]
      ensures old(D.Inv(Queues())) ==> D.Inv(Queues())
    {
      hide D.Inv;
      D.ReplyInv(Queues(), i);
      replied := replied + [awaiting[i]];
      awaiting := RemoveAt(awaiting, i);
    }

    // --- Flush --------------------------------------------------------------

    /** The main loop dispatches do_emit_signal while a thread sleeps in Flush. */
    method DispatchEmit()
      requires Valid() && D.HandlerInv(Queues()) && !strandedSignals && !strandedCalls
      requires connectStatus >= 3 && disconnectStatus == 0 && emitSources > 0 && flusher == D.Sleeping(false)
      modifies signals, signals.nodes, `emitSources, `pool, `flusher, `strandedSignals
      ensures Valid() && flusher == D.Sleeping(true) && D.HandlerInv(Queues()) && !strandedSignals
      ensures old(signals.nodes) != [] && signals.nodes == []
      ensures D.Flat(pool) == D.Flat(old(pool)) + old(Values(signals.nodes))
    {
      hide D.EmitCallback, D.Flat;
      D.CallbacksDrain(Queues(), connectStatus);
      hide D.HandlerInv;
      var again := DoEmitSignal();
      assert !again;
      emitSources := emitSources - 1;
      assert Values(signals.nodes) == [];
    }

    /** The main loop dispatches do_call_method while a thread sleeps in Flush. */
    method DispatchCall()
      requires Valid() && D.HandlerInv(Queues()) && !strandedSignals && !strandedCalls
      requires connectStatus >= 3 && disconnectStatus == 0 && callSources > 0 && flusher == D.Sleeping(false)
      modifies methodCalls, methodCalls.nodes, `callSources, `awaiting, `flusher, `issued, `cleared, `strandedCalls
      ensures Valid() && flusher == D.Sleeping(true) && D.HandlerInv(Queues()) && !strandedCalls
      ensures old(methodCalls.nodes) != [] && methodCalls.nodes == []
      ensures issued == old(issued) + old(Values(methodCalls.nodes))
    {
      hide D.CallCallback, D.Flat;
      D.CallbacksDrain(Queues(), connectStatus);
      hide D.HandlerInv;
      var again := DoCallMethod();
      assert !again;
      callSources := callSources - 1;
      assert Values(methodCalls.nodes) == [];
    }

    /** While a thread waits in Flush, the main loop asks for a connection, and the bus answers. */
    method ConnectMeanwhile()
      requires L.Inv(Life()) && R.CanConnect(Life()) && connectStatus < 3
      modifies `registry, `registrationIds, `owner, `connection, `refs, `connectStatus, `reconnect, `disconnectStatus,
               `context, `started
      ensures L.Inv(Life()) && connectStatus == 3 && disconnectStatus == 0
    {
      hide L.Inv, L.Enabled, L.Step, R.CanConnect;
      if connectStatus < 2 {
        R.Asking(Life());
        Dispatch(if connectStatus == 0 then L.DoConnect else L.DoReconnect);
      }
      R.Answered(Life());
      Dispatch(L.OnBusGet(true, R.AllOk(interfaces)));
    }

    /** Nothing was dropped: whatever is queued has its handler. */
    ghost predicate Served()
      reads signals, signals.nodes, methodCalls, methodCalls.nodes, `emitSources, `callSources, `pool, `awaiting
      reads `flusher, `submitted, `trace, `submittedCalls, `issued, `cleared, `replied, `strandedSignals, `strandedCalls
    {
      Valid() && D.HandlerInv(Queues()) && !strandedSignals && !strandedCalls
    }

    /** The connection is there, or on its way, and nobody is disconnecting. */
    ghost predicate Connectable()
      reads `registrationIds, `registry, `connection, `refs, `owner, `reconnect, `connectStatus, `disconnectStatus
      reads `context, `started
    {
      L.Inv(Life()) && disconnectStatus == 0 && R.CanConnect(Life())
    }

    /** All signals that were handed to the pool or are queued, in order, and all calls issued or queued. */
    ghost function AllSignals(): seq<nat>
      reads signals`nodes, `pool
    {
      D.Flat(pool) + Values(signals.nodes)
    }

    ghost function AllCalls(): seq<D.Call>
      reads methodCalls`nodes, `issued
    {
      issued + Values(methodCalls.nodes)
    }

    /** While connected, the main loop dispatches one of the handlers. */
    method DispatchHandler()
      requires Served() && flusher == D.Sleeping(false)
      requires connectStatus >= 3 && disconnectStatus == 0 && (signals.nodes != [] || methodCalls.nodes != [])
      modifies signals, signals.nodes, methodCalls, methodCalls.nodes, `emitSources, `callSources, `pool, `awaiting,
               `flusher, `issued, `cleared, `strandedSignals, `strandedCalls
      ensures forall x | x in signals.nodes :: x in old(signals.nodes)
      ensures forall x | x in methodCalls.nodes :: x in old(methodCalls.nodes)
      ensures Valid() && Served() && flusher == D.Sleeping(true)
      ensures |signals.nodes| + |methodCalls.nodes| < old(|signals.nodes| + |methodCalls.nodes|)
      ensures AllSignals() == old(AllSignals()) && AllCalls() == old(AllCalls())
    {
      hide D.Flat, ListBase.Valid;
      if emitSources > 0 {
        DispatchEmit();
        assert Values(signals.nodes) == [];
      } else {
        DispatchCall();
        assert Values(methodCalls.nodes) == [];
      }
    }

    /**
     * g_cond_wait in Flush: the main loop connects if it has to and dispatches a handler, and the thread is woken
     * because every handler that drains a queue signals the condition.
     */
    method WaitForFlush()
      requires Served() && Connectable() && flusher == D.Sleeping(false)
      requires signals.nodes != [] || methodCalls.nodes != []
      modifies signals, signals.nodes, methodCalls, methodCalls.nodes, `emitSources, `callSources, `pool, `awaiting,
               `flusher, `issued, `cleared, `strandedSignals, `strandedCalls
      modifies `registry, `registrationIds, `owner, `connection, `refs, `connectStatus, `reconnect, `disconnectStatus,
               `context, `started
      ensures forall x | x in signals.nodes :: x in old(signals.nodes)
      ensures forall x | x in methodCalls.nodes :: x in old(methodCalls.nodes)
      ensures Valid() && Served() && Connectable() && flusher == D.Sleeping(true)
      ensures old(connectStatus) >= 3 ==> Life() == old(Life())
      ensures |signals.nodes| + |methodCalls.nodes| < old(|signals.nodes| + |methodCalls.nodes|)
      ensures AllSignals() == old(AllSignals()) && AllCalls() == old(AllCalls())
    {
      hide L.Inv, Served, AllSignals, AllCalls, ListBase.Valid;
      if connectStatus < 3 {
        ConnectMeanwhile();
      }
      assert forall j :: 0 <= j < |signals.nodes| ==> signals.nodes[j] in signals.nodes;
      assert forall j :: 0 <= j < |methodCalls.nodes| ==> methodCalls.nodes[j] in methodCalls.nodes;
      DispatchHandler();
    }

    /** The thread sleeps, and wakes up in the end or, before anything has happened, for no reason. */
    method Sleep(spurious: bool)
      requires Valid() && Served() && Connectable() && (signals.nodes != [] || methodCalls.nodes != [])
      modifies signals, signals.nodes, methodCalls, methodCalls.nodes, `emitSources, `callSources, `pool, `awaiting,
               `flusher, `issued, `cleared, `strandedSignals, `strandedCalls
      modifies `registry, `registrationIds, `owner, `connection, `refs, `connectStatus, `reconnect, `disconnectStatus,
               `context, `started
      ensures forall x | x in signals.nodes :: x in old(signals.nodes)
      ensures forall x | x in methodCalls.nodes :: x in old(methodCalls.nodes)
      ensures Valid() && Served() && Connectable() && (old(connectStatus) >= 3 ==> Life() == old(Life()))
      ensures if spurious then signals.nodes == old(signals.nodes) && methodCalls.nodes == old(methodCalls.nodes)
              else |signals.nodes| + |methodCalls.nodes| < old(|signals.nodes| + |methodCalls.nodes|)
      ensures AllSignals() == old(AllSignals()) && AllCalls() == old(AllCalls())
    {
      hide Connectable, AllSignals, AllCalls, ListBase.Valid;
      flusher := D.Sleeping(false);
      assert Served();
      hide Served;
      if !spurious {
        assert forall j :: 0 <= j < |signals.nodes| ==> signals.nodes[j] in signals.nodes;
        assert forall j :: 0 <= j < |methodCalls.nodes| ==> methodCalls.nodes[j] in methodCalls.nodes;
        WaitForFlush();
      }
    }

    /** The loop of Flush; between the main loop's callbacks the thread may wake up for no reason. */
    method FlushQueues(spurious: seq<bool>)
      requires Valid() && Served() && Connectable()
      modifies signals, signals.nodes, methodCalls, methodCalls.nodes, `emitSources, `callSources, `pool, `awaiting,
               `flusher, `issued, `cleared, `strandedSignals, `strandedCalls
      modifies `registry, `registrationIds, `owner, `connection, `refs, `connectStatus, `reconnect, `disconnectStatus,
               `context, `started
      ensures Valid() && Served() && Connectable() && signals.nodes == [] && methodCalls.nodes == []
      ensures old(connectStatus) >= 3 ==> Life() == old(Life())
      ensures AllSignals() == old(AllSignals()) && AllCalls() == old(AllCalls())
    {
      hide Connectable, AllSignals, AllCalls, ListBase.Linked, Served;
      var i := 0;
      while signals.count > 0 || methodCalls.count > 0
        invariant i <= |spurious|
        invariant (forall x | x in signals.nodes :: x in old(signals.nodes))
        invariant forall x | x in methodCalls.nodes :: x in old(methodCalls.nodes)
        invariant Valid() && Served() && Connectable() && (old(connectStatus) >= 3 ==> Life() == old(Life()))
        invariant AllSignals() == old(AllSignals()) && AllCalls() == old(AllCalls())
        decreases |signals.nodes| + |methodCalls.nodes|, |spurious| - i
      {
        assert forall j :: 0 <= j < |signals.nodes| ==> signals.nodes[j] in signals.nodes;
        assert forall j :: 0 <= j < |methodCalls.nodes| ==> methodCalls.nodes[j] in methodCalls.nodes;
        Sleep(i < |spurious| && spurious[i]);
        i := if i < |spurious| then i + 1 else i;
      }
    }

    /**
     * Flush returns true after every signal and call has left its queue, in order. If something is queued there must be
     * a connection, or one on its way, and handlers that were not dropped.
     */
    method Flush(spurious: seq<bool>) returns (ok: bool)
      requires Valid() && D.HandlerInv(Queues()) && L.Inv(Life()) && disconnectStatus == 0
      requires || connectStatus == 0 || (signals.nodes == [] && methodCalls.nodes == [])
               || (R.CanConnect(Life()) && !strandedSignals && !strandedCalls)
      modifies signals, signals.nodes, methodCalls, methodCalls.nodes, `emitSources, `callSources, `pool, `awaiting,
               `flusher, `issued, `cleared, `strandedSignals, `strandedCalls
      modifies `registry, `registrationIds, `owner, `connection, `refs, `connectStatus, `reconnect, `disconnectStatus,
               `context, `started
      ensures ok <==> old(connectStatus) != 0
      ensures Valid() && D.HandlerInv(Queues()) && L.Inv(Life()) && disconnectStatus == 0
      ensures old(connectStatus == 0 || connectStatus >= 3 || (signals.nodes == [] && methodCalls.nodes == [])) ==>
                Life() == old(Life())
      ensures ok ==> signals.nodes == [] && D.Flat(pool) == D.Flat(old(pool)) + old(Values(signals.nodes))
      ensures ok ==> methodCalls.nodes == [] && issued == old(issued) + old(Values(methodCalls.nodes))
      ensures !ok ==> Queues() == old(Queues()) && signals.nodes == old(signals.nodes)
                      && methodCalls.nodes == old(methodCalls.nodes)
    {
      hide D.HandlerInv, D.Flat, L.Inv, R.CanConnect;
      if connectStatus == 0 {
        return false;
      }
      if signals.count > 0 || methodCalls.count > 0 {
        FlushQueues(spurious);
      }
      assert Values(signals.nodes) == [] && Values(methodCalls.nodes) == [];
      assert D.Flat(pool) + [] == D.Flat(pool) && issued + [] == issued;
      return true;
    }

    // --- registration -------------------------------------------------------

    method RegisterObjects(oks: seq<seq<bool>>)
      requires |oks| == |registrationIds|
      modifies `registry, `registrationIds
      ensures (registry, registrationIds) ==
              if connection then Registration.RegisterObjects(old(registry), old(registrationIds), oks)
              else (old(registry), old(registrationIds))
    {
      if !connection {
        return;
      }
      ghost var was := registrationIds;
      assert was[..0] == [] && oks[..0] == [];
      for i := 0 to |registrationIds|
        invariant |registrationIds| == |was| && registrationIds[i..] == was[i..]
        invariant (registry, registrationIds[..i]) == Registration.RegisterObjects(old(registry), was[..i], oks[..i])
      {
        assert was[..i + 1][..i] == was[..i] && oks[..i + 1][..i] == oks[..i];
        assert registrationIds[i] == registrationIds[i..][0] == was[i..][0] == was[i];
        ghost var done, tail := registrationIds[..i], registrationIds[i..];
        var (r, ids) := RegisterObject(registry, registrationIds[i], oks[i]);
        registry := r;
        registrationIds := registrationIds[i := Some(ids)];
        assert registrationIds[..i + 1] == done + [Some(ids)];
        assert registrationIds[i + 1..] == tail[1..] == was[i + 1..];
      }
      assert was[..|was|] == was && oks[..|was|] == oks && registrationIds[..|was|] == registrationIds;
    }

    method UnregisterObjects()
      modifies `registry, `registrationIds
      ensures (registry, registrationIds) ==
              if connection then (Registration.UnregisterObjects(old(registry), old(registrationIds)),
                                  NoIds(|old(registrationIds)|))
              else (old(registry), old(registrationIds))
    {
      if !connection {
        return;
      }
      ghost var was := registrationIds;
      assert was[..0] == [];
      for i := 0 to |registrationIds|
        invariant |registrationIds| == |was| && registrationIds[i..] == was[i..]
        invariant registry == Registration.UnregisterObjects(old(registry), was[..i])
        invariant forall j :: 0 <= j < i ==> registrationIds[j] == None
      {
        assert was[..i + 1][..i] == was[..i] && was[..i + 1][i] == was[i];
        assert registrationIds[i] == registrationIds[i..][0] == was[i..][0] == was[i];
        registry := UnregisterObject(registry, registrationIds[i]);
        registrationIds := registrationIds[i := None];
        assert registrationIds[i + 1..] == was[i..][1..];
      }
      assert was[..|was|] == was && registrationIds == NoIds(|was|);
    }

    // --- connecting ---------------------------------------------------------

    method Connect(autoReconnect: bool)
      modifies `reconnect, `connectStatus, `context, `started
      ensures Life() == L.ConnectStep(old(Life()), autoReconnect)
    {
      reconnect := autoReconnect;
      connectStatus := 0;
      context := context.(connects := context.connects + 1);
      started := true;
    }

    /** do_connect; it never returns true. */
    method DoConnect()
      requires context.connects > 0
      modifies `connectStatus, `context
      ensures Life() == L.DoConnectStep(old(Life()))
    {
      context := context.(connects := context.connects - 1);
      if connectStatus == 0 {
        connectStatus := 2;
        if busType == L.TypedBus || busType == L.Address {
          context := context.(busGets := context.busGets + 1);
        } else {
          return;
        }
        context := context.(timers := context.timers + 1);
      }
    }

    /** do_reconnect; GLib removes the timer unless it returns true. */
    method DoReconnect() returns (again: bool)
      requires context.timers > 0
      modifies `connectStatus, `context
      ensures context.timers > 0
      ensures again <==> old(reconnect) && (old(connectStatus) == 2 ||
                                            (old(connectStatus) == 1 && busType != L.NoAddress))
      ensures connectStatus == if !old(reconnect) then old(connectStatus) else
                                 match old(connectStatus) case 1 => 2 case 3 => 4 case other => other
      ensures context.busGets == old(context.busGets) + if again && old(connectStatus) == 1 then 1 else 0
      ensures (if again then Life() else Life().(timers := Life().timers - 1)) == L.DoReconnectStep(old(Life()))
    {
      if !reconnect {
        return false;
      }
      if connectStatus == 3 {
        connectStatus := 4;
        return false;
      }
      if connectStatus == 1 {
        connectStatus := 2;
        if busType == L.TypedBus || busType == L.Address {
          context := context.(busGets := context.busGets + 1);
          return true;
        }
        return false;
      } else if connectStatus == 2 {
        return true;
      }
      return false;
    }

    /** The answer of on_bus_get; got says whether it has a connection, failed whether an error came with it. */
    method FinishBusGet(got: bool, failed: bool)
      requires busType != L.NoAddress
      modifies `connection, `refs
      ensures connection == (got && (busType == L.TypedBus || !failed))
      ensures refs == old(refs) + if connection then 1 else 0
    {
      if busType == L.TypedBus {
        connection := got;
        refs := refs + if got then 1 else 0;
      } else if busType == L.Address {
        connection := got;
        refs := refs + if got then 1 else 0;
        if !connection || failed {
          if connection {
            refs := refs - 1;
            connection := false;
          }
        }
      }
    }

    method Announce(oks: seq<seq<bool>>)
      requires connection && |oks| == |registrationIds|
      modifies `owner, `registry, `registrationIds
      ensures Life() == L.Announce(old(Life()), oks)
    {
      hide Registration.RegisterObjects;
      RegisterObjects(oks);
      owner := true;
    }

    /** on_bus_get */
    method OnBusGet(got: bool, failed: bool, oks: seq<seq<bool>>)
      requires context.busGets > 0 && |oks| == |registrationIds| && busType != L.NoAddress
      modifies `connection, `refs, `connectStatus, `owner, `registry, `registrationIds, `context
      ensures Life() == L.OnBusGetStep(old(Life()), got && (busType == L.TypedBus || !failed), oks)
    {
      hide L.Announce;
      context := context.(busGets := context.busGets - 1);
      FinishBusGet(got, failed);
      if connection {
        connectStatus := 3;
        if named {
          Announce(oks);
        }
      } else {
        connectStatus := 1;
      }
    }

    // --- losing the name ----------------------------------------------------

    method Withdraw()
      modifies `registry, `registrationIds, `owner
      ensures Life() == L.Withdraw(old(Life()))
    {
      if named {
        UnregisterObjects();
      }
      if owner {
        owner := false;
      }
    }

    method OnNameLost()
      modifies `registry, `registrationIds, `owner, `connection, `refs, `connectStatus, `reconnect, `context, `started
      ensures Life() == L.OnNameLostStep(old(Life()))
    {
      Withdraw();
      if busType == L.Address {
        context := context.(nameLostCloses := context.nameLostCloses + 1);
      } else {
        OnNameLostClose(false);
      }
    }

    method Release()
      modifies `connection, `refs
      ensures Life() == if old(connection) then L.DropConnection(old(Life())) else old(Life())
    {
      if connection {
        refs := refs - 1;
        connection := false;
      }
    }

    /** on_name_lost_close, with the result of an asynchronous close or without. */
    method OnNameLostClose(res: bool)
      requires res ==> context.nameLostCloses > 0
      modifies `connection, `refs, `connectStatus, `reconnect, `context, `started
      ensures var l := old(Life());
              Life() == L.NameLostClosed(if res then l.(nameLostCloses := l.nameLostCloses - 1) else l)
    {
      hide L.ConnectStep, L.DropConnection;
      if res {
        context := context.(nameLostCloses := context.nameLostCloses - 1);
      }
      Release();
      connectStatus := if connectStatus == 4 then 0 else 1;
      if reconnect {
        Connect(true);
      }
    }

    // --- disconnecting ------------------------------------------------------

    /** do_flush */
    method DoFlush()
      requires context.flushSources > 0
      modifies `context
      ensures Life() == L.Step(old(Life()), L.DoFlush)
    {
      context := context.(flushSources := context.flushSources - 1, flushes := context.flushes + 1);
    }

    /** on_flush */
    method OnFlush()
      requires context.flushes > 0
      modifies `context
      ensures Life() == L.OnFlushStep(old(Life()))
    {
      context := context.(flushes := context.flushes - 1);
      if disconnectStatus == 0 {
        return;
      }
      context := context.(disconnects := context.disconnects + 1);
    }

    /** do_disconnect */
    method DoDisconnect()
      requires context.disconnects > 0
      modifies `registry, `registrationIds, `owner, `connection, `refs, `connectStatus, `disconnectStatus, `context
      ensures Life() == L.DoDisconnectStep(old(Life()))
    {
      context := context.(disconnects := context.disconnects - 1);
      Withdraw();
      if busType == L.Address {
        if connection {
          context := context.(disconnectCloses := context.disconnectCloses + 1);
        }
      } else {
        OnDisconnectClose(false);
      }
    }

    /** on_disconnect_close, with the result of an asynchronous close or without. */
    method OnDisconnectClose(res: bool)
      requires res ==> context.disconnectCloses > 0
      modifies `connection, `refs, `connectStatus, `disconnectStatus, `context
      ensures var l := old(Life());
              Life() == L.DisconnectClosed(if res then l.(disconnectCloses := l.disconnectCloses - 1) else l)
    {
      if res {
        context := context.(disconnectCloses := context.disconnectCloses - 1);
      }
      if connection {
        Release();
        connectStatus := 0;
      }
      disconnectStatus := 2;
    }

    /** The main loop runs what is pending for an event; every callback keeps the invariant of the life cycle. */
    method Dispatch(e: L.Event)
      requires L.Inv(Life()) && L.Enabled(Life(), e) && !L.OtherThread(e)
      modifies `registry, `registrationIds, `owner, `connection, `refs, `connectStatus, `reconnect, `disconnectStatus,
               `context, `started
      ensures Life() == L.Step(old(Life()), e) && L.Inv(Life())
    {
      L.StepKeepsInv(Life(), e);
      assert busType != L.NoAddress;
      hide L.Inv, L.Enabled, L.Step;
      if e.DoDisconnect? || e.OnDisconnectClose? || e.DoFlush? || e.OnFlush? {
        DispatchClosing(e);
      } else {
        DispatchOpening(e);
      }
    }

    /** The callbacks of a Disconnect. */
    method DispatchClosing(e: L.Event)
      requires L.Enabled(Life(), e) && (e.DoDisconnect? || e.OnDisconnectClose? || e.DoFlush? || e.OnFlush?)
      modifies `registry, `registrationIds, `owner, `connection, `refs, `connectStatus, `disconnectStatus, `context
      ensures Life() == L.Step(old(Life()), e)
    {
      hide L.OnFlushStep, L.DoDisconnectStep, L.DisconnectClosed;
      match e
      case DoFlush => DoFlush();
      case OnFlush => OnFlush();
      case DoDisconnect => DoDisconnect();
      case OnDisconnectClose => OnDisconnectClose(true);
    }

    /** The callbacks that connect, and those of a lost name. */
    method DispatchOpening(e: L.Event)
      requires L.Enabled(Life(), e) && busType != L.NoAddress
      requires e.DoConnect? || e.DoReconnect? || e.OnBusGet? || e.OnNameLost? || e.OnNameLostClose?
      modifies `registry, `registrationIds, `owner, `connection, `refs, `connectStatus, `reconnect, `context, `started
      ensures Life() == L.Step(old(Life()), e)
    {
      hide L.DoConnectStep, L.OnNameLostStep, L.NameLostClosed, L.OnBusGetStep, L.DoReconnectStep;
      match e
      case DoConnect => DoConnect();
      case DoReconnect =>
        var again := DoReconnect();
        context := if again then context else context.(timers := context.timers - 1);
      case OnBusGet(ok, oks) => OnBusGet(ok, false, oks);
      case OnNameLost => OnNameLost();
      case OnNameLostClose => OnNameLostClose(true);
    }

    /** g_cond_wait in Disconnect: the main loop runs one of the callbacks that lead to the end. */
    method WaitForDisconnect()
      requires L.Inv(Life()) && disconnectStatus == 1
      modifies `registry, `registrationIds, `owner, `connection, `refs, `connectStatus, `reconnect, `disconnectStatus,
               `context, `started
      ensures L.Inv(Life())
      ensures disconnectStatus == 2 || (disconnectStatus == 1 && R.Remaining(Life()) < old(R.Remaining(Life())))
    {
      ghost var l := Life();
      R.DisconnectPending(l);
      var e := if context.flushSources > 0 then L.DoFlush else if context.flushes > 0 then L.OnFlush
               else if context.disconnects > 0 then L.DoDisconnect else L.OnDisconnectClose;
      assert L.Enabled(l, e);
      R.DisconnectProgress(l, e);
      hide L.Inv, L.Step, R.Remaining;
      Dispatch(e);
    }

    method BeginDisconnect()
      requires connectStatus != 0
      modifies `reconnect, `disconnectStatus, `context
      ensures Life() == L.DisconnectStep(old(Life()))
    {
      reconnect := false;
      disconnectStatus := 1;
      // on_flush leads to do_disconnect
      if connectStatus >= 3 {
        context := context.(flushSources := context.flushSources + 1);
      } else {
        context := context.(disconnects := context.disconnects + 1);
      }
    }

    /** Disconnect on a message bus while there is no connection; do_disconnect comes before any answer of the bus. */
    method DisconnectEarly()
      requires busType != L.Address && connectStatus in {1, 2}
      requires !connection && !owner && disconnectStatus == 0 && context.disconnects == 0
      modifies `registry, `registrationIds, `owner, `connection, `refs, `connectStatus, `reconnect, `disconnectStatus,
               `context
      ensures Life() == old(Life()).(reconnect := false)
    {
      ghost var l := Life();
      BeginDisconnect();
      assert Life() == l.(reconnect := false, disconnectStatus := 1, disconnectSources := 1);
      DoDisconnect();
      assert disconnectStatus == 2;
      disconnectStatus := 0;
    }

    /**
     * Disconnect returns, and leaves neither connection nor registrations nor name. Without a connection it only ends
     * automatic reconnects; a connection on its way still comes.
     */
    method Disconnect()
      requires L.Inv(Life()) && disconnectStatus == 0
      requires connectStatus >= 3 ==> L.Enabled(Life(), L.Disconnect)
      requires connectStatus in {1, 2} ==> busType != L.Address
      modifies `registry, `registrationIds, `owner, `connection, `refs, `connectStatus, `reconnect, `disconnectStatus,
               `context, `started
      ensures L.Inv(Life())
      ensures old(connectStatus) == 0 ==> Life() == old(Life())
      ensures old(connectStatus) in {1, 2} ==> Life() == old(Life()).(reconnect := false)
      ensures old(connectStatus) >= 3 ==> R.Down(Life().(disconnectStatus := 2)) && disconnectStatus == 0 && !reconnect
    {
      if connectStatus == 0 {
        return;
      }
      if connectStatus < 3 {
        DisconnectEarly();
        return;
      }
      L.StepKeepsInv(Life(), L.Disconnect);
      R.DisconnectStarts(Life());
      hide L.Inv, L.DisconnectStep, R.Remaining, R.Down;
      BeginDisconnect();
      while disconnectStatus < 2
        invariant L.Inv(Life()) && 1 <= disconnectStatus <= 2
        decreases if disconnectStatus == 1 then 1 + R.Remaining(Life()) else 0
      {
        WaitForDisconnect();
      }
      R.DisconnectedIsDown(Life());
      L.StepKeepsInv(Life(), L.DisconnectReturns);
      disconnectStatus := 0;
    }
  }
}
