/**
 * Disconnect while there is no connection yet, which the destructor of cDBusConnection may do: a bus that has refused
 * the connection (status 1) or has not answered yet (status 2).
 */
module EarlyDisconnect {
  import opened Registration
  import opened Lifecycle
  import opened LifecycleRuns

  /** Disconnect has been called without a connection, and do_disconnect is still pending. */
  ghost predicate Early(l: Life) {
    && l.bus != NoAddress && 1 <= l.status <= 4 && l.disconnectStatus == 1 && !l.reconnect
    && l.disconnectSources == 1 && l.flushSources == l.flushes == l.disconnectCloses == 0
    && l.connectSources == l.nameLostCloses == 0
    && (l.connected <==> l.status >= 3) && (l.busGets == if l.status == 2 then 1 else 0)
    && |l.ids| == |l.interfaces|
  }

  lemma EarlyStarts(l: Life)
    requires Inv(l) && (l.status == 1 || l.status == 2)
    ensures var m := DisconnectStep(l); Early(m) && m.status == l.status && m.bus == l.bus && !m.connected
  {
  }

  /** Whatever else comes before do_disconnect, it stays so. */
  lemma EarlyGoesOn(l: Life, e: Event)
    requires Early(l) && Enabled(l, e) && e != DoDisconnect
    ensures Early(Step(l, e)) && Step(l, e).bus == l.bus
  {
    hide RegisterObjects, UnregisterObjects;
  }

  /** Nothing is pending that could ever wake up the thread in Disconnect. */
  ghost predicate Stuck(l: Life) {
    && l.bus == Address && l.disconnectStatus == 1 && !l.reconnect && l.connectSources == l.nameLostCloses == 0
    && l.flushSources == l.flushes == l.disconnectSources == l.disconnectCloses == 0
  }

  lemma StuckStep(l: Life, e: Event)
    requires Stuck(l) && Enabled(l, e)
    ensures Stuck(Step(l, e))
  {
    hide RegisterObjects, UnregisterObjects;
  }

  lemma {:induction false} StuckForever(states: seq<Life>, events: seq<Event>, k: nat)
    requires IsRun(states, events) && Stuck(states[0]) && k < |states|
    ensures Stuck(states[k])
  {
    hide Stuck, Enabled, Step;
    if k > 0 {
      StuckForever(states, events, k - 1);
      StuckStep(states[k - 1], events[k - 1]);
    }
  }

  /**
   * do_disconnect decides: on a message bus Disconnect returns. With an address it returns after the connection has
   * been closed, if there is one by now; otherwise it hangs.
   */
  lemma EarlyDecides(l: Life)
    requires Early(l)
    ensures var m := Step(l, DoDisconnect);
            if l.bus == TypedBus
            then m.disconnectStatus == 2 && !m.connected && m.status == if l.connected then 0 else l.status
            else if l.connected then Enabled(m, OnDisconnectClose) && Step(m, OnDisconnectClose).disconnectStatus == 2
            else Stuck(m)
  {
    hide UnregisterObjects;
  }

  /** From here Disconnect can return. */
  ghost predicate CanReturn(l: Life) {
    exists states: seq<Life>, events ::
      IsRun(states, events) && states[0] == l && states[|events|].disconnectStatus == 2
  }

  lemma ReturnsBy(states: seq<Life>, events: seq<Event>)
    requires IsRun(states, events) && states[|events|].disconnectStatus == 2
    ensures CanReturn(states[0])
  {
  }

  lemma ReturnsOnce(l: Life)
    requires Early(l) && (l.bus == TypedBus || l.connected)
    ensures CanReturn(l)
  {
    EarlyDecides(l);
    assert Enabled(l, DoDisconnect);
    hide Early, Step, Enabled;
    var m := Step(l, DoDisconnect);
    if l.bus == TypedBus {
      ReturnsBy([l, m], [DoDisconnect]);
    } else {
      ReturnsBy([l, m, Step(m, OnDisconnectClose)], [DoDisconnect, OnDisconnectClose]);
    }
  }

  lemma EarlyAnswer(l: Life) returns (e: Event, m: Life)
    requires Early(l) && l.status == 2
    ensures Enabled(l, e) && m == Step(l, e) && Early(m) && m.connected && m.bus == l.bus
  {
    hide RegisterObjects;
    e := OnBusGet(true, AllOk(l.interfaces));
    m := Step(l, e);
  }

  lemma ReturnsBefore(l: Life, e: Event)
    requires Enabled(l, e) && CanReturn(Step(l, e))
    ensures CanReturn(l)
  {
    hide Enabled, Step;
    var states: seq<Life>, events :|
      IsRun(states, events) && states[0] == Step(l, e) && states[|events|].disconnectStatus == 2;
    ReturnsBy([l] + states, [e] + events);
  }

  /** Otherwise it does not, in any run. */
  lemma {:induction false} NeverReturns(states: seq<Life>, events: seq<Event>)
    requires IsRun(states, events) && Early(states[0]) && states[0].bus == Address && states[0].status == 1
    ensures states[|events|].disconnectStatus == 1
    decreases |events|
  {
    hide Early, Step, Enabled;
    if events != [] {
      if events[0] == DoDisconnect {
        EarlyDecides(states[0]);
        assert states[0].status == 1 ==> !states[0].connected by { EarlyConnected(states[0]); }
        StuckForever(states[1..], events[1..], |events| - 1);
      } else {
        RefusedGoesOn(states[0], events[0]);
        NeverReturns(states[1..], events[1..]);
      }
    } else {
      EarlyConnected(states[0]);
    }
  }

  lemma EarlyConnected(l: Life)
    requires Early(l)
    ensures l.disconnectStatus == 1 && (l.connected <==> l.status >= 3)
  {
  }

  lemma RefusedGoesOn(l: Life, e: Event)
    requires Early(l) && Enabled(l, e) && e != DoDisconnect && l.status == 1
    ensures var m := Step(l, e); Early(m) && m.bus == l.bus && m.status == 1
  {
    EarlyGoesOn(l, e);
  }

  /**
   * A Disconnect that was called without a connection can return if and only if it is on a message bus, or the bus
   * has not answered yet.
   */
  lemma EarlyReturnsIff(l: Life)
    requires Inv(l) && (l.status == 1 || l.status == 2)
    ensures CanReturn(DisconnectStep(l)) <==> l.bus == TypedBus || l.status == 2
  {
    EarlyStarts(l);
    var m := DisconnectStep(l);
    hide Early, Step, Enabled, Inv, DisconnectStep;
    if l.bus == TypedBus {
      ReturnsOnce(m);
    } else if l.status == 2 {
      var e, n := EarlyAnswer(m);
      ReturnsOnce(n);
      ReturnsBefore(m, e);
    } else if CanReturn(m) {
      var states: seq<Life>, events :|
        IsRun(states, events) && states[0] == m && states[|events|].disconnectStatus == 2;
      NeverReturns(states, events);
    }
  }

  /** On a message bus do_disconnect is pending as long as the thread waits. */
  lemma {:induction false} EarlyRun(states: seq<Life>, events: seq<Event>, k: nat)
    requires IsRun(states, events) && Early(states[0]) && states[0].bus == TypedBus && k < |states| && AllWait(states)
    ensures Early(states[k]) && states[k].bus == TypedBus
  {
    hide Early, Step, Enabled;
    if k > 0 {
      EarlyRun(states, events, k - 1);
      assert states[k].disconnectStatus == 1;
      EarlyDecides(states[k - 1]);
      EarlyGoesOn(states[k - 1], events[k - 1]);
    }
  }

  /** Disconnect has not returned yet. */
  predicate AllWait(states: seq<Life>) {
    forall i :: 0 <= i < |states| ==> states[i].disconnectStatus == 1
  }

  /** In every run it can still return, whatever has come first, if and only if it is on a message bus. */
  lemma EarlySureIff(l: Life)
    requires Inv(l) && (l.status == 1 || l.status == 2)
    ensures (forall states, events | IsRun(states, events) && states[0] == DisconnectStep(l) && AllWait(states) ::
               CanReturn(states[|events|])) <==> l.bus == TypedBus
  {
    EarlyStarts(l);
    var m := DisconnectStep(l);
    hide Early, Step, Enabled, Inv, DisconnectStep, CanReturn;
    if l.bus == TypedBus {
      forall states, events | IsRun(states, events) && states[0] == m && AllWait(states)
        ensures CanReturn(states[|events|])
      {
        EarlyRun(states, events, |events|);
        ReturnsOnce(states[|events|]);
      }
    } else {
      EarlyDecides(m);
      var n := Step(m, DoDisconnect);
      StuckHangs(n);
      EarlyWaits(m);
      assert IsRun([m, n], [DoDisconnect]) && AllWait([m, n]);
      assert [m, n][|[DoDisconnect]|] == n;
    }
  }

  lemma EarlyWaits(l: Life)
    requires Early(l)
    ensures Enabled(l, DoDisconnect) && l.disconnectStatus == 1 && l.bus != NoAddress
  {
  }

  lemma StuckHangs(l: Life)
    requires Stuck(l)
    ensures !CanReturn(l) && l.disconnectStatus == 1
  {
    if CanReturn(l) {
      var states: seq<Life>, events :|
        IsRun(states, events) && states[0] == l && states[|events|].disconnectStatus == 2;
      hide Enabled, Step;
      StuckForever(states, events, |events|);
    }
  }

  /**
   * On a message bus, if do_disconnect comes before an answer, Disconnect has changed nothing but _reconnect when it
   * returns: a connection that was on its way still comes.
   */
  lemma EarlyLeaves(l: Life)
    requires Inv(l) && l.bus == TypedBus && (l.status == 1 || l.status == 2) && l.disconnectStatus == 0
    ensures var m := DisconnectStep(l);
            && Enabled(m, DoDisconnect) && Enabled(Step(m, DoDisconnect), DisconnectReturns)
            && var r := Step(Step(m, DoDisconnect), DisconnectReturns);
               r == l.(reconnect := false) && Inv(r) && (CanConnect(r) <==> l.status == 2)
  {
    hide UnregisterObjects;
    var m := DisconnectStep(l);
    var d := DoDisconnectStep(m);
    assert d == l.(reconnect := false, disconnectStatus := 2);
    NameInvFrame(l, l.(reconnect := false));
  }
}
