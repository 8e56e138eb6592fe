/** Pieces of concrete runs of a connection. */
module ExampleRuns {
  import opened Registration
  import opened Connection
  import L = Lifecycle
  import D = Delivery

  lemma Then(before: seq<Conn>, past: seq<Event>, e: Event) returns (states: seq<Conn>, events: seq<Event>)
    requires IsRun(before, past) && Enabled(before[|past|], e)
    ensures IsRun(states, events) && |states| == |events| + 1 && states[|events|] == Step(before[|past|], e)
    ensures before <= states && past + [e] == events
  {
    hide Enabled, Step;
    states, events := before + [Step(before[|past|], e)], past + [e];
  }

  /** A connection to a message bus without name and objects, and nothing pending for it but old timers. */
  ghost predicate Plain(l: L.Life, status: nat) {
    && l.bus == L.TypedBus && !l.named && l.interfaces == [] && l.ids == []
    && l.status == status && l.connectSources == l.busGets == l.nameLostCloses == 0
    && l.disconnectStatus == l.flushSources == l.flushes == l.disconnectSources == l.disconnectCloses == 0
    && (l.connected <==> status == 3)
  }

  lemma LifeConnects(l: L.Life) returns (a: L.Life, b: L.Life, c: L.Life)
    requires Plain(l, 0)
    ensures L.Enabled(l, L.Connect(true)) && a == L.Step(l, L.Connect(true))
    ensures L.Enabled(a, L.DoConnect) && b == L.Step(a, L.DoConnect)
    ensures L.Enabled(b, L.OnBusGet(true, [])) && c == L.Step(b, L.OnBusGet(true, []))
    ensures Plain(c, 3)
  {
    hide RegisterObjects, UnregisterObjects;
    a := L.ConnectStep(l, true);
    b := L.DoConnectStep(a);
    c := L.OnBusGetStep(b, true, []);
  }

  lemma LifeDisconnects(l: L.Life) returns (a: L.Life, b: L.Life, c: L.Life, d: L.Life)
    requires l.disconnectStatus == 1 && l.flushSources == 1 && Plain(l.(disconnectStatus := 0, flushSources := 0), 3)
    ensures L.Enabled(l, L.DoFlush) && a == L.Step(l, L.DoFlush)
    ensures L.Enabled(a, L.OnFlush) && b == L.Step(a, L.OnFlush)
    ensures L.Enabled(b, L.DoDisconnect) && c == L.Step(b, L.DoDisconnect)
    ensures L.Enabled(c, L.DisconnectReturns) && d == L.Step(c, L.DisconnectReturns)
    ensures Plain(d, 0)
  {
    hide RegisterObjects, UnregisterObjects, L.Outcomes;
    a := l.(flushSources := 0, flushes := 1);
    b := L.OnFlushStep(a);
    c := L.DoDisconnectStep(b);
    d := c.(disconnectStatus := 0);
  }

  lemma Connects(before: seq<Conn>, past: seq<Event>) returns (states: seq<Conn>, events: seq<Event>)
    requires |before| == |past| + 1 && IsRun(before, past)
    requires Plain(before[|past|].life, 0) && before[|past|].queues.pc == D.Loop
    ensures IsRun(states, events) && |states| == |events| + 1
    ensures Plain(states[|events|].life, 3) && states[|events|].queues == before[|past|].queues
  {
    hide IsRun, Plain, L.Enabled, L.Step;
    var a, b, c := LifeConnects(before[|past|].life);
    states, events := Then(before, past, LifeEvent(L.Connect(true)));
    states, events := Then(states, events, LifeEvent(L.DoConnect));
    states, events := Then(states, events, LifeEvent(L.OnBusGet(true, [])));
  }

  lemma Disconnects(before: seq<Conn>, past: seq<Event>) returns (states: seq<Conn>, events: seq<Event>)
    requires |before| == |past| + 1 && IsRun(before, past) && before[|past|].queues.pc == D.Loop
    requires var l := before[|past|].life;
             l.disconnectStatus == 1 && l.flushSources == 1 && Plain(l.(disconnectStatus := 0, flushSources := 0), 3)
    ensures IsRun(states, events) && |states| == |events| + 1
    ensures Plain(states[|events|].life, 0) && states[|events|].queues == before[|past|].queues
    ensures before <= states && past <= events
  {
    hide IsRun, Plain, L.Enabled, L.Step;
    var a, b, c, d := LifeDisconnects(before[|past|].life);
    states, events := Then(before, past, LifeEvent(L.DoFlush));
    states, events := Then(states, events, LifeEvent(L.OnFlush));
    states, events := Then(states, events, LifeEvent(L.DoDisconnect));
    states, events := Then(states, events, LifeEvent(L.DisconnectReturns));
  }

  lemma Fresh() returns (states: seq<Conn>, events: seq<Event>)
    ensures IsRun(states, events) && |states| == |events| + 1
    ensures Plain(states[|events|].life, 0) && states[|events|].queues == D.Empty()
  {
    states, events := [Created(L.TypedBus, false, [])], [];
  }
}
