/**
 * Connecting, reconnecting, registration and disconnecting of cDBusConnection (connection.c) as a
 * transition system. A main-loop callback is one step; the steps of other threads come in between.
 */
module Lifecycle {
  import opened Options
  import opened Registration

  datatype BusKind = TypedBus | Address | NoAddress

  /**
   * The fields of the connection, what is pending in the main loop (idle sources, timers, asynchronous
   * operations), and the objects with their registrations.
   */
  datatype Life = Life(
    bus: BusKind,                  // _bus_type and _bus_address
    named: bool,                   // _busname != NULL
    interfaces: seq<nat>,          // of each object
    connected: bool,               // _connection != NULL
    status: nat,                   // _connect_status
    reconnect: bool,               // _reconnect
    disconnectStatus: nat,         // _disconnect_status
    owner: bool,                   // _owner_id != 0
    ids: seq<Option<seq<nat>>>,    // _registration_ids of each object
    registry: Registry,
    refs: int,                     // references to GDBus connections
    started: bool,                 // Connect has been called
    connectSources: nat,           // do_connect
    timers: nat,                   // do_reconnect
    busGets: nat,                  // on_bus_get
    nameLostCloses: nat,           // on_name_lost_close
    flushSources: nat,             // do_flush
    flushes: nat,                  // on_flush
    disconnectSources: nat,        // do_disconnect
    disconnectCloses: nat)         // on_disconnect_close

  datatype Event =
    | Connect(auto: bool)
    | DoConnect
    | DoReconnect
    | OnBusGet(ok: bool, oks: seq<seq<bool>>)
    | OnNameLost
    | OnNameLostClose
    | Disconnect
    | DoFlush
    | OnFlush
    | DoDisconnect
    | OnDisconnectClose
    | DisconnectReturns

  /** The calls and wake-ups of other threads; the rest runs in the main loop. */
  predicate OtherThread(e: Event) {
    e.Connect? || e.Disconnect? || e.DisconnectReturns?
  }

  function Created(bus: BusKind, named: bool, interfaces: seq<nat>): Life {
    Life(bus, named, interfaces, false, 0, bus == TypedBus, 0, false, NoIds(|interfaces|), Registry(1, {}), 0, false,
         0, 0, 0, 0, 0, 0, 0, 0)
  }

  // --- the parts the callbacks share ----------------------------------------

  /** Connect */
  function ConnectStep(l: Life, auto: bool): Life {
    l.(reconnect := auto, status := 0, connectSources := l.connectSources + 1, started := true)
  }

  /** Unregisters the objects, if there is a connection and a bus name, and gives up the name. */
  function Withdraw(l: Life): Life {
    var l1 := if l.connected && l.named
              then l.(registry := UnregisterObjects(l.registry, l.ids), ids := NoIds(|l.ids|)) else l;
    l1.(owner := false)
  }

  function DropConnection(l: Life): Life {
    l.(connected := false, refs := l.refs - 1)
  }

  /** on_name_lost_close */
  function NameLostClosed(l: Life): Life {
    var l1 := if l.connected then DropConnection(l) else l;
    var l2 := l1.(status := if l.status == 4 then 0 else 1);
    if l.reconnect then ConnectStep(l2, true) else l2
  }

  /** on_disconnect_close */
  function DisconnectClosed(l: Life): Life {
    var l1 := if l.connected then DropConnection(l).(status := 0) else l;
    l1.(disconnectStatus := 2)
  }

  /** A successful on_bus_get registers the objects and asks for the name. */
  function Announce(l: Life, oks: seq<seq<bool>>): Life
    requires |oks| == |l.ids|
  {
    var (registry, ids) := RegisterObjects(l.registry, l.ids, oks);
    l.(registry := registry, ids := ids, owner := true)
  }

  // --- the steps ------------------------------------------------------------

  /** One outcome per interface of each object. */
  ghost predicate Outcomes(l: Life, oks: seq<seq<bool>>) {
    |oks| == |l.ids| == |l.interfaces| && forall i :: 0 <= i < |oks| ==> |oks[i]| == l.interfaces[i]
  }

  /**
   * When a step can happen. GLib delivers what is pending, and reports a lost name only to an owner.
   * The rest restricts callers: Connect only while nothing is connected or on its way, Disconnect only
   * on a connection, and no name loss while disconnecting.
   */
  ghost predicate Enabled(l: Life, e: Event) {
    match e
    case Connect(_) => l.status <= 1 && l.connectSources == 0 && l.disconnectStatus == 0
    case DoConnect => l.connectSources > 0
    case DoReconnect => l.timers > 0
    case OnBusGet(_, oks) => l.busGets > 0 && Outcomes(l, oks)
    case OnNameLost => l.owner && l.disconnectStatus == 0
    case OnNameLostClose => l.nameLostCloses > 0
    case Disconnect => l.status >= 3 && l.nameLostCloses == 0 && l.disconnectStatus == 0
    case DoFlush => l.flushSources > 0
    case OnFlush => l.flushes > 0
    case DoDisconnect => l.disconnectSources > 0
    case OnDisconnectClose => l.disconnectCloses > 0
    case DisconnectReturns => l.disconnectStatus == 2
  }

  function DoConnectStep(l: Life): Life
    requires l.connectSources > 0
  {
    var l1 := l.(connectSources := l.connectSources - 1);
    if l.status == 0 then
      if l.bus == NoAddress then l1.(status := 2)
      else l1.(status := 2, busGets := l.busGets + 1, timers := l.timers + 1)
    else l1
  }

  function DoReconnectStep(l: Life): Life
    requires l.timers > 0
  {
    var over := l.(timers := l.timers - 1);
    if !l.reconnect then over
    else if l.status == 3 then over.(status := 4)
    else if l.status == 1 then
      if l.bus == NoAddress then over.(status := 2) else l.(status := 2, busGets := l.busGets + 1)
    else if l.status == 2 then l
    else over
  }

  function OnBusGetStep(l: Life, ok: bool, oks: seq<seq<bool>>): Life
    requires l.busGets > 0 && |oks| == |l.ids|
  {
    var l1 := l.(busGets := l.busGets - 1, connected := ok);
    if ok then
      var l2 := l1.(status := 3, refs := l.refs + 1);
      if l.named then Announce(l2, oks) else l2
    else l1.(status := 1)
  }

  function OnNameLostStep(l: Life): Life {
    var l1 := Withdraw(l);
    if l.bus == Address then l1.(nameLostCloses := l.nameLostCloses + 1) else NameLostClosed(l1)
  }

  function DisconnectStep(l: Life): Life {
    if l.status == 0 then l else
      var l1 := l.(reconnect := false, disconnectStatus := 1);
      if l.status >= 3 then l1.(flushSources := l.flushSources + 1)
      else l1.(disconnectSources := l.disconnectSources + 1)
  }

  function OnFlushStep(l: Life): Life
    requires l.flushes > 0
  {
    var l1 := l.(flushes := l.flushes - 1);
    if l.disconnectStatus == 0 then l1 else l1.(disconnectSources := l.disconnectSources + 1)
  }

  function DoDisconnectStep(l: Life): Life
    requires l.disconnectSources > 0
  {
    var l1 := Withdraw(l.(disconnectSources := l.disconnectSources - 1));
    if l.bus != Address then DisconnectClosed(l1)
    // g_dbus_connection_close rejects NULL and then never calls back
    else if l.connected then l1.(disconnectCloses := l.disconnectCloses + 1) else l1
  }

  function Step(l: Life, e: Event): Life
    requires Enabled(l, e)
  {
    match e
    case Connect(auto) => ConnectStep(l, auto)
    case DoConnect => DoConnectStep(l)
    case DoReconnect => DoReconnectStep(l)
    case OnBusGet(ok, oks) => OnBusGetStep(l, ok, oks)
    case OnNameLost => OnNameLostStep(l)
    case OnNameLostClose => NameLostClosed(l.(nameLostCloses := l.nameLostCloses - 1))
    case Disconnect => DisconnectStep(l)
    case DoFlush => l.(flushSources := l.flushSources - 1, flushes := l.flushes + 1)
    case OnFlush => OnFlushStep(l)
    case DoDisconnect => DoDisconnectStep(l)
    case OnDisconnectClose => DisconnectClosed(l.(disconnectCloses := l.disconnectCloses - 1))
    case DisconnectReturns => l.(disconnectStatus := 0)
  }

  // --- invariants -----------------------------------------------------------

  /** The five values of the status and what each stands for. */
  ghost predicate StatusInv(l: Life) {
    && l.status <= 4 && l.busGets <= 1 && l.connectSources <= 1
    && (l.status == 2 <==> l.busGets == 1)
    && (l.connected <==> l.status == 3 || l.status == 4)
    && l.refs == (if l.connected then 1 else 0)
    && (l.connectSources == 1 ==> l.status == 0 && l.started)
    && (l.started && l.reconnect && l.status == 0 ==> l.connectSources == 1)
    && (l.started && l.reconnect && 1 <= l.status <= 3 ==> l.timers >= 1)
    && (!l.started ==> l.status == 0)
  }

  /** Registrations and the bus name go with the connection. */
  ghost predicate NameInv(l: Life) {
    && |l.ids| == |l.interfaces| && RegistryValid(l.registry)
    && (l.owner <==> l.named && l.connected && l.nameLostCloses == 0 && l.disconnectCloses == 0)
    && (forall i :: 0 <= i < |l.ids| ==>
          (l.ids[i].Some? <==> l.owner) && (l.ids[i].Some? ==> |l.ids[i].value| == l.interfaces[i]))
    && l.registry.live == AllIds(l.ids) && NotShared(l.ids)
  }

  /** The callbacks of a Disconnect follow one another; a name-loss close excludes them. */
  ghost predicate CloseInv(l: Life) {
    && l.disconnectStatus <= 2
    && l.flushSources + l.flushes + l.disconnectSources + l.disconnectCloses
       == (if l.disconnectStatus == 1 then 1 else 0)
    && (l.disconnectStatus == 1 ==> l.connected && !l.reconnect && l.nameLostCloses == 0)
    && (l.disconnectStatus == 2 ==> !l.connected && !l.reconnect && l.status == 0 && l.connectSources == 0)
    && l.nameLostCloses <= 1
    && (l.nameLostCloses == 1 ==> l.connected && l.bus == Address)
    && (l.disconnectCloses == 1 ==> l.bus == Address)
  }

  ghost predicate Inv(l: Life) {
    l.bus != NoAddress && StatusInv(l) && NameInv(l) && CloseInv(l)
  }

  lemma CreatedInv(bus: BusKind, named: bool, interfaces: seq<nat>)
    requires bus != NoAddress
    ensures Inv(Created(bus, named, interfaces))
  {
    AllIdsNone(|interfaces|);
  }

  lemma {:induction false} AllIdsNone(n: nat)
    ensures AllIds(NoIds(n)) == {}
  {
    if n > 0 {
      assert NoIds(n)[..n - 1] == NoIds(n - 1);
      AllIdsNone(n - 1);
    }
  }

  /** Withdrawing leaves nothing registered. */
  lemma WithdrawMeaning(l: Life)
    requires NameInv(l) && l.connected
    ensures var w := Withdraw(l);
            && !w.owner && w.ids == NoIds(|l.interfaces|) && w.registry.live == {} && RegistryValid(w.registry)
            && w == l.(owner := false, ids := w.ids, registry := w.registry)
  {
    UnregisterObjectsMeaning(l.registry, l.ids);
    AllIdsNone(|l.ids|);
    if !l.named {
      assert l.ids == NoIds(|l.ids|);
    }
  }

  lemma AnnounceMeaning(l: Life, oks: seq<seq<bool>>)
    requires |l.ids| == |l.interfaces| && RegistryValid(l.registry) && Outcomes(l, oks)
    requires l.ids == NoIds(|l.ids|) && l.registry.live == {}
    ensures var a := Announce(l, oks);
            && a.owner && |a.ids| == |l.ids| && RegistryValid(a.registry) && a.registry.live == AllIds(a.ids)
            && NotShared(a.ids) && Accepted(a.ids, oks)
            && (forall i :: 0 <= i < |a.ids| ==> a.ids[i].Some? && |a.ids[i].value| == l.interfaces[i])
            && a == l.(owner := true, ids := a.ids, registry := a.registry)
  {
    RegisterObjectsMeaning(l.registry, |l.ids|, oks);
  }

  lemma NoIdsWhenNoOwner(l: Life)
    requires NameInv(l) && !l.owner
    ensures l.ids == NoIds(|l.ids|) && l.registry.live == {}
  {
    AllIdsNone(|l.ids|);
    assert l.ids == NoIds(|l.ids|);
  }

  /** Steps that leave the registrations alone keep what is said about them. */
  lemma NameInvFrame(l: Life, m: Life)
    requires NameInv(l)
    requires m.ids == l.ids && m.registry == l.registry && m.interfaces == l.interfaces
    requires m.owner == l.owner && m.named == l.named
    requires l.owner <==> m.named && m.connected && m.nameLostCloses == 0 && m.disconnectCloses == 0
    ensures NameInv(m)
  {
  }

  /** Steps that do not touch the connection. */
  lemma QuietStepKeepsInv(l: Life, e: Event)
    requires Inv(l) && Enabled(l, e)
    requires !e.OnBusGet? && !e.OnNameLost? && !e.OnNameLostClose? && !e.DoDisconnect? && !e.OnDisconnectClose?
    ensures Inv(Step(l, e))
  {
    var m := Step(l, e);
    assert StatusInv(m) && CloseInv(m) by {
      hide NameInv;
    }
    NameInvFrame(l, m);
  }

  lemma OnBusGetKeepsInv(l: Life, ok: bool, oks: seq<seq<bool>>)
    requires Inv(l) && Enabled(l, OnBusGet(ok, oks))
    ensures Inv(OnBusGetStep(l, ok, oks))
  {
    hide Announce;
    assert !l.owner && l.disconnectStatus != 1;
    NoIdsWhenNoOwner(l);
    if ok && l.named {
      AnnounceMeaning(l.(busGets := l.busGets - 1, connected := true, status := 3, refs := l.refs + 1), oks);
    } else {
      NameInvFrame(l, OnBusGetStep(l, ok, oks));
    }
  }

  /** Nothing is registered, and the name is given up. */
  ghost predicate Withdrawn(l: Life) {
    && |l.ids| == |l.interfaces| && RegistryValid(l.registry)
    && !l.owner && l.ids == NoIds(|l.ids|) && l.registry.live == {}
  }

  lemma WithdrawnNameInv(l: Life)
    requires Withdrawn(l)
    requires !(l.named && l.connected && l.nameLostCloses == 0 && l.disconnectCloses == 0)
    ensures NameInv(l)
  {
    AllIdsNone(|l.ids|);
  }

  lemma NameLostClosedKeepsInv(l: Life)
    requires l.bus != NoAddress && StatusInv(l) && CloseInv(l) && Withdrawn(l)
    requires l.connected && l.nameLostCloses == 0 && l.disconnectStatus == 0
    ensures Inv(NameLostClosed(l))
  {
    var m := NameLostClosed(l);
    assert StatusInv(m) && CloseInv(m);
    WithdrawnNameInv(m);
  }

  lemma OnNameLostKeepsInv(l: Life)
    requires Inv(l) && Enabled(l, OnNameLost)
    ensures Inv(OnNameLostStep(l))
  {
    hide Withdraw;
    WithdrawMeaning(l);
    var w := Withdraw(l);
    assert StatusInv(w) && CloseInv(w) && Withdrawn(w);
    if l.bus == Address {
      WithdrawnNameInv(OnNameLostStep(l));
    } else {
      NameLostClosedKeepsInv(w);
    }
  }

  lemma OnNameLostCloseKeepsInv(l: Life)
    requires Inv(l) && Enabled(l, OnNameLostClose)
    ensures Inv(Step(l, OnNameLostClose))
  {
  }

  lemma DisconnectClosedKeepsInv(l: Life)
    requires l.bus != NoAddress && StatusInv(l) && Withdrawn(l)
    requires l.connected && !l.reconnect && l.nameLostCloses == 0 && l.disconnectStatus == 1
    requires l.flushSources + l.flushes + l.disconnectSources + l.disconnectCloses == 0
    ensures Inv(DisconnectClosed(l))
  {
    var m := DisconnectClosed(l);
    assert StatusInv(m) && CloseInv(m);
    WithdrawnNameInv(m);
  }

  lemma DoDisconnectKeepsInv(l: Life)
    requires Inv(l) && Enabled(l, DoDisconnect)
    ensures Inv(DoDisconnectStep(l))
  {
    hide Withdraw;
    var m := l.(disconnectSources := l.disconnectSources - 1);
    NameInvFrame(l, m);
    WithdrawMeaning(m);
    var w := Withdraw(m);
    assert StatusInv(w) && Withdrawn(w);
    if l.bus == Address {
      WithdrawnNameInv(DoDisconnectStep(l));
    } else {
      DisconnectClosedKeepsInv(w);
    }
  }

  lemma OnDisconnectCloseKeepsInv(l: Life)
    requires Inv(l) && Enabled(l, OnDisconnectClose)
    ensures Inv(Step(l, OnDisconnectClose))
  {
  }

  lemma StepKeepsInv(l: Life, e: Event)
    requires Inv(l) && Enabled(l, e)
    ensures Inv(Step(l, e))
  {
    hide Inv, OnBusGetStep, OnNameLostStep, NameLostClosed, DoDisconnectStep, DisconnectClosed;
    match e
    case OnBusGet(ok, oks) => OnBusGetKeepsInv(l, ok, oks);
    case OnNameLost => OnNameLostKeepsInv(l);
    case OnNameLostClose => OnNameLostCloseKeepsInv(l);
    case DoDisconnect => DoDisconnectKeepsInv(l);
    case OnDisconnectClose => OnDisconnectCloseKeepsInv(l);
    case _ => QuietStepKeepsInv(l, e);
  }
}
