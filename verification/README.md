# dbus2vdr: models and proofs

dbus2vdr connects VDR to D-Bus. Most of it passes calls on; this project is about the parts with logic of their own.

- **The connection** (`connection.c`, `object.c`). Any thread emits signals and calls methods through two queues; one
  GLib main loop drains them, connects, reconnects, registers objects, owns a bus name and disconnects; a pool of workers
  sends the signals. `Lifecycle` and `Delivery` are transition systems for the two halves, `Connection` is both together.
  What is proved about all runs is in `LifecycleRuns`, `Connection`, `Handlers` (the handlers of the queues), `Flushing`
  (exactly when `Flush` can return), `Workers` (whether the connection is still there when it is used), `Shutdown` (a
  `Disconnect` in the middle of everything else) and `EarlyDisconnect` (one that is called without a connection);
  `ExampleRuns` has pieces of concrete runs. `DBusConnection.Connection` is the class with the source's fields: each call
  and callback changes them exactly as the transition systems say. The two blocking calls do not always return. The class
  has them where they do: `Flush` if nothing is queued, or if there is a connection or one on its way and no handler was
  dropped; `Disconnect` on a connection, or on a message bus. `Registration` is the array of ids an object keeps with
  GDBus.
- **The intrusive list** and **the hash** (`libvdr-tools.c`). `CList` is the pointer structure on the heap, in-place sort
  included, and represents a sequence; `ListWalk` has the loops over whole lists. `CHash` is a table of such lists that
  represents one flat list. The connection's queues and the setup lines are `CList` lists as well.
- **UTF-8** (`libvdr-tools.c`, `helper.c`). `Utf8`, `Utf8Arrays` and `Utf8Check`: the bit arithmetic, the bounded copies
  and conversions, and the validity scan, for bytes and buffers of any content.
- **Option strings** (`libvdr-tools.c`, `avahi-helper.h`). `StringEscape` prints, `AvahiHelper` parses in place.
- **Base64 and bit reading** (`libvdr-tools.c`). `Base64` with a decoder of its own after section 4 of RFC 4648;
  `BitStream`.
- **The read-ahead window** of `cUnbufferedFile` (`libvdr-tools.c`). `CacheWindow` with the set of resident bytes.
- **The counting mutex** (`libvdr-thread.c`). `CMutex`: every access and every pthread call is a step of its own, for any
  number of threads; and the classes `Mutex` and `MutexLock` for calls that nobody interrupts.
- **The setup store** (`setup.c`). `SetupStore` for names without a binding, and `TextTools` for `compactspace` in place.

Modules stand in files of their names, except that `Sequences` and `ListWalk` are in `CList.dfy`, `Options` and `Filters` are in
`CHash.dfy`, `CStrings`, `StringEscape` and `AvahiHelper` in `OptionString.dfy`, and `TextTools` in `SetupStore.dfy`. `dafny verify dfyconfig.toml` checks everything.

Where the code does not do what one would expect, the code is modelled and the exact condition is proved:

- A `Disconnect` makes `do_emit_signal` and `do_call_method` return FALSE without emptying their queue (the comment says
  the signals are forgotten). The queue then never becomes empty, so that no new handler is ever attached. For both
  queues, `Handlers.OneHandler` is the if-and-only-if, `Handlers.StrandedForever` what follows, and
  `Handlers.StrandedExample` a run.
- `Flush` waits for ever in two kinds of states: after a handler was dropped, and when something is queued while no
  connection is on its way. In any status a waiting `Flush` can return if and only if both queues are empty, or there can
  be a connection (status 2 or more, or do_connect pending, or status 1 with automatic reconnects and a timer) and no
  handler was dropped: `Flushing.FlushReturnsIff`. `Flushing.UnansweredExample` hangs without a dropped handler, after
  `Connect(FALSE)` to a bus that does not answer. `Flushing.FlushDuringDisconnect` is the condition while a `Disconnect`
  is under way.
- A `Disconnect` without a connection can return if and only if it is on a message bus or the bus has not answered yet,
  and is sure to if and only if it is on a message bus, since `g_dbus_connection_close` never calls back for NULL:
  `EarlyDisconnect.EarlyReturnsIff` and `EarlyDisconnect.EarlySureIff`. Called while the bus has not answered, it may
  return before the connection comes: `EarlyDisconnect.EarlyLeaves`.
- Workers and `do_call_reply` use the connection without looking whether it is there. After a `Disconnect` it always is,
  until the next `Connect`, if and only if at the call the main loop is in neither `do_emit_signal` nor `do_call_method`,
  no worker has something to send and no call waits: `Shutdown.DisconnectSafeIff`. `Flush` does not make that so:
  `Shutdown.FlushedExample` is a run in which it has returned true before. For whole runs, with lost names as well, the
  condition at each closing is in `Workers.ConnectionThereIff`, with a run in `Workers.ExposedExample`.
- `cMutex::Unlock` and `cCondVar::Wait` trust their callers. `Unlock` leaves the counter in step with the owner if and
  only if its caller has a `Lock` to undo: `CMutex.UnlockInStepIff`. Step by step, `CMutex.DisciplineIff` says that the
  first call against the discipline breaks the invariant, and `CMutex.UndisciplinedExample` is one.
- The header promises that `Utf8ToArray` writes a terminating 0. It does if and only if the string has fewer symbols than
  the array has slots: `Utf8Arrays.TerminatedIff`, and `Utf8Arrays.UnterminatedExample`.
- `cHashBase::Del` compares the object only. It removes the pair it names if and only if the first entry of that object in
  the bucket is stored under the given id: `CHash.DelRemovesPair`, and `CHash.DelOtherPairExample`.
- The option parser takes a comma for text if the character in front of it, once de-escaped, is a backslash. A list
  survives printing and parsing if and only if its first and last item are not empty and no item but the last ends in a
  backslash: `AvahiHelper.PrintParse`, and `AvahiHelper.BackslashExample`.
- `IsValidUtf8` steps over the terminator if and only if the string is a row of whole groups and one that the terminator
  cuts off: `Utf8Check.VerdictIffGroups` for strings of any bytes, `Utf8Check.OverrunIffCutOff` by the symbols that
  `Utf8CharLen` sees, and two examples.
- A `cUnbufferedFile` loses its position when `lseek` fails. Its window is safe in every state of a run if and only if no
  `lseek` fails: `CacheWindow.SafeIffSeeksSucceed`. `CacheWindow.RunInsideIff` says exactly in which runs the first `Read`
  at a lost position leaves a resident byte outside the window, and `CacheWindow.FailedSeekExample` is one.
- `Del("n.*")` does not resolve the name as `Set` and `Get` do. It removes all that they address as `n.key` if and only if
  n has no dot, no blank in front and no two blanks in a row: `SetupStore.DelReachesPlugin`, with
  `SetupStore.DelDoesNotCompact` and `SetupStore.DelTakesDots` for the two ways to fail.
- `endswith` looks at the character in front of an empty string, which makes a difference if and only if that is the
  whole pattern: `TextTools.EndsWith`, and `TextTools.EndsWithExample`.

## Model

| member | source | states |
|---|---|---|
| LifecycleRuns.ReconnectMachine | connection.c:353-485 | in every state of every run with automatic reconnects: status 2 exactly while one bus-get is in flight, connected exactly in status 3 and 4, one do_connect pending in status 0, a do_reconnect timer alive in status 1 to 3 |
| LifecycleRuns.TimerRepeatsIff | connection.c:427-459 | in every run a do_reconnect timer repeats if and only if reconnects are on and the status is 1 or 2; on a connection it ends, and with reconnects on the status is 4 afterwards; nothing else changes but a bus-get in status 1 |
| LifecycleRuns.TimersRunOut | connection.c:436-439 | as long as a connection stays up each do_reconnect takes one timer away |
| LifecycleRuns.NameLostLeads | connection.c:353-377 | in every run, when the connection is gone after a lost name: with reconnects on, do_connect is pending; otherwise the status is 0 if the connection had been confirmed and 1 if not, and nothing that is pending connects again |
| LifecycleRuns.NameLostCloses | connection.c:347-348 | with an address the connection is closed first and stays until then, without name and objects |
| LifecycleRuns.BusGetLeads | connection.c:379-425 | in every run on_bus_get ends the one bus-get: status 3 and connected exactly if the bus gives a connection, 1 otherwise, with the name owned exactly if there is one |
| LifecycleRuns.ConnectLeads | connection.c:239-249 | Connect on what is neither connected nor on its way makes a connection possible |
| LifecycleRuns.NoAddressRun | connection.c:461-478 | without a bus and an address no run ever connects, and after do_connect nothing is pending |
| LifecycleRuns.TimersOverlap | connection.c:353-377 | such a run in which two timers are alive at once |
| LifecycleRuns.Recovery | connection.c:379-485 | from every reachable unconnected state at most two pending callbacks lead to a connection |
| LifecycleRuns.NameFollowsConnection | connection.c:405-421 | in every run a name is owned only while connected; then each object has one entry per interface, no registration appears twice, in one object or in two, and exactly these are live; otherwise nothing is registered |
| LifecycleRuns.RunKeepsInv | connection.c:239-566 | the invariant over the status, what is pending, the registrations and the shutdown holds in every state of every run |
| LifecycleRuns.DisconnectProgress | connection.c:487-566 | while disconnecting, whichever callback runs brings the end nearer |
| LifecycleRuns.DisconnectPending | connection.c:251-274 | while disconnecting, one of the callbacks that lead to the end is pending |
| LifecycleRuns.DisconnectEnds | connection.c:251-274 | after at most four callbacks and one for each timer there is no connection, status 0, no id, no name |
| LifecycleRuns.DisconnectedIsDown | connection.c:513-532 | what holds when the waiting thread is woken |
| Lifecycle.CreatedInv | connection.c:42-98 | a new connection satisfies the invariant |
| Lifecycle.OnBusGetKeepsInv | connection.c:379-425 | on_bus_get keeps the invariant, whether it gets a connection or not |
| Lifecycle.OnNameLostKeepsInv | connection.c:327-351 | on_name_lost keeps it |
| Lifecycle.OnNameLostCloseKeepsInv | connection.c:353-377 | on_name_lost_close keeps it |
| Lifecycle.DoDisconnectKeepsInv | connection.c:487-511 | do_disconnect keeps it |
| Lifecycle.OnDisconnectCloseKeepsInv | connection.c:513-532 | on_disconnect_close keeps it |
| Lifecycle.QuietStepKeepsInv | connection.c:427-485 | the remaining steps, with Connect, do_connect and do_reconnect, keep it |
| Lifecycle.StepKeepsInv | connection.c:239-566 | every step keeps it |
| Lifecycle.AnnounceMeaning | connection.c:411-421 | after registering, every interface has an id of its own, 0 exactly where GDBus refused, none shared, and the live ids are exactly these |
| Lifecycle.WithdrawMeaning | connection.c:339-345 | after withdrawing nothing is registered and no name is owned |
| Registration.RegisterAllMeaning | object.c:133-137 | registering gives every accepted interface a fresh id of its own and 0 to the others |
| Registration.RegisterAgain | object.c:120-138 | registering again gives up the old registrations first and gets new ids |
| Registration.UnregisterAllMeaning | object.c:144-150 | unregistering removes exactly the ids of the array |
| Registration.RegisterUnregister | object.c:120-155 | Unregister undoes Register |
| Registration.RegisterObjectsMeaning | connection.c:276-284 | all objects together: one entry per interface, 0 exactly where refused, no id shared within an object or between two |
| Registration.UnregisterObjectsMeaning | connection.c:286-294 | all objects together: exactly their ids are gone |
| Registration.DBusObject.Register | object.c:120-138 | rebuilds the array as the function that the lemmas are about; nothing without a connection |
| Registration.DBusObject.Unregister | object.c:140-155 | frees the array in any case, its ids only with a connection |
| Delivery.StepKeepsInv | connection.c:157-237 | every step of every thread keeps the order, worker, handler, call and wake-up invariants, for any connection status |
| Delivery.EmitSignalKeepsInv | connection.c:157-170 | a handler is attached only when the queue was empty, and that keeps exactly one |
| Delivery.CallMethodKeepsInv | connection.c:172-185 | the same for method calls |
| Delivery.EmitDrainKeepsInv | connection.c:587-600 | the drain moves the queue as a whole |
| Delivery.EmitPushKeepsInv | connection.c:602-619 | the batch joins the batches in order |
| Delivery.WorkerSendKeepsInv | connection.c:696-719 | a worker's send takes one signal from the unsent ones and extends its batch's trace in order |
| Delivery.WorkerRunMeaning | connection.c:696-719 | a worker that finishes has sent its batch, all of it, in order, and touched no other |
| Delivery.CallDrainKeepsInv | connection.c:643-665 | each call is issued once; those with a handler wait, the others are freed by Clear |
| Delivery.ReplyKeepsInv | connection.c:669-684 | a reply frees a call that waited, once |
| Delivery.CallbacksAreSteps | connection.c:568-667 | a whole callback is the main loop's steps in a row, in any status |
| Delivery.CallbacksDrain | connection.c:568-667 | while connected, a whole callback empties its queue in order, keeps the handler invariant and wakes a flushing thread |
| Connection.StepKeepsInv | connection.c:157-667 | both halves together: past the checks of do_emit_signal and do_call_method there is a connection |
| Connection.RunKeepsInv | connection.c:157-667 | over every run |
| Connection.ExactlyOnePlace | connection.c:157-170 | every emitted signal is in exactly one of queue, hand-over, unsent batch part and sent trace |
| Connection.SubmissionOrder | connection.c:568-622 | the batches and then the queue are the submissions in order; each batch is sent in order |
| Handlers.OneHandler | connection.c:157-185 | for either queue: it is non-empty exactly if one attached handler has not passed its drain, in a whole run if and only if no handler of it is dispatched during a Disconnect |
| Handlers.StrandedForever | connection.c:575-581 | for either queue: once a handler was dropped nothing submitted later is sent or issued, no handler attached, no Flush succeeds, whatever happens |
| Handlers.StrandedExample | connection.c:630-637 | for either queue: a run that ends connected with two entries queued and no handler |
| Connection.CallOwnership | connection.c:624-684 | each call is in one of queue, waiting, freed by Clear, freed by do_call_reply; issued in order and at most once; who frees it depends on its handler |
| Connection.ReplyFreesItsCall | connection.c:669-684 | in every run a waiting call stops waiting at a step if and only if that step is its own reply; it alone is freed then, and the others wait on in order; any other step keeps all that wait |
| Connection.WaitsForItsReply | connection.c:669-684 | between two moments of a run a call goes on waiting if and only if its own reply has not come; otherwise it has been freed |
| Connection.UsesConnection | connection.c:639-653 | do_call_method and do_emit_signal go on only while there is a connection |
| Flushing.FlushMeaning | connection.c:227-237 | when Flush has returned true, all submitted until a moment after its call had left the queues |
| Flushing.FlushGivesUpIff | connection.c:230-231 | in every run Flush answers false if and only if it is called in status 0; otherwise it waits, and its answer stays until it returns |
| Flushing.NoLostWakeup | connection.c:227-237 | in every state of every run a thread sleeps unnotified only with something queued |
| Flushing.FlushNotStuck | connection.c:227-237 | in any status: with both queues empty, or with a connection possible and no handler dropped, what is pending lets Flush return, without anybody's help |
| Flushing.FlushReturnsIff | connection.c:227-237 | in any status: a waiting Flush can return true, unless somebody calls Connect or Disconnect, if and only if both queues are empty, or there is a connection or one on its way and no handler of either queue was dropped before |
| Flushing.FlushDuringDisconnect | connection.c:227-237 | while disconnecting, it can if and only if each queue is empty or being drained at that moment |
| Flushing.UnansweredExample | connection.c:230-234 | a run with a Flush that never returns true although no handler was dropped |
| LifecycleRuns.Connecting | connection.c:379-485 | with a connection possible, at most two pending callbacks make one |
| LifecycleRuns.NeverConnects | connection.c:427-485 | otherwise no callback of the main loop makes one possible |
| Shutdown.DisconnectSafeIff | connection.c:251-274 | after a Disconnect no worker can send and no reply be fetched without a connection, in any continuation up to the next Connect, if and only if at the call the main loop is in none of the two handlers, nothing is unsent in a batch and no call waits |
| Shutdown.FlushedExample | connection.c:227-274 | a run in which Flush has returned true before the Disconnect and a worker sends afterwards |
| Shutdown.DisconnectEnds | connection.c:251-274 | in every run of the whole connection a Disconnect on a connection is over after at most four callbacks and one for each timer, whatever else happens in between |
| EarlyDisconnect.EarlyReturnsIff | connection.c:251-274 | called in status 1 or 2, Disconnect can return if and only if it is on a message bus or the bus has not answered |
| EarlyDisconnect.EarlySureIff | connection.c:251-274 | it can still return in every run, whatever has come first, if and only if it is on a message bus |
| EarlyDisconnect.EarlyDecides | connection.c:487-532 | do_disconnect decides: the end, a close that leads to it, or nothing pending any more |
| EarlyDisconnect.StuckForever | connection.c:505-509 | once nothing is pending any more the waiting thread is never woken |
| EarlyDisconnect.EarlyLeaves | connection.c:487-532 | on a message bus, without an answer in between, it changes nothing but _reconnect; a connection can still come if and only if the bus had not answered |
| Workers.ConnectionThereIff | connection.c:669-719 | in a whole run, lost names included, no worker can send and no reply be fetched without a connection if and only if it never closes the connection with a signal unsent in a batch or a call waiting |
| Workers.OutstandingUses | connection.c:669-719 | something unsent or waiting means exactly that such a step is possible |
| Workers.ExposedExample | connection.c:696-719 | a run in which a worker sends after the connection is gone |
| DBusConnection.Connection.constructor | connection.c:42-98 | the initial state |
| DBusConnection.Connection.EmitSignal | connection.c:157-170 | changes the fields as the EmitSignal step |
| DBusConnection.Connection.CallMethod | connection.c:172-185 | changes the fields as the CallMethod step |
| DBusConnection.Connection.DoEmitSignal | connection.c:568-622 | the loop that moves the signals one by one is the check, drain and push steps in a row; again exactly if not connected |
| DBusConnection.Connection.DoWork | connection.c:696-719 | the sending loop is the worker's steps up to the end |
| DBusConnection.Connection.IssueOne | connection.c:645-662 | one round of that loop, with the next pointer taken before the deletion |
| DBusConnection.Connection.IssueCalls | connection.c:644-662 | the loop that deletes while it walks leaves exactly the calls without a handler, in order |
| DBusConnection.Connection.DrainCalls | connection.c:643-665 | the loop and Clear are the drain step |
| DBusConnection.Connection.DoCallMethod | connection.c:624-667 | is the check and drain steps in a row |
| DBusConnection.Connection.DoCallReply | connection.c:669-684 | is the reply step: frees the call it is the reply of and leaves the others, in order |
| DBusConnection.Connection.Flush | connection.c:227-237 | in any status it returns, with any spurious wake-ups, if nothing is queued, or a connection is possible and no handler was dropped: true with both queues handed on completely and in order; false exactly in status 0 |
| DBusConnection.Connection.WaitForFlush | connection.c:233-234 | each wait ends, with fewer entries queued and in order, also when the connection has to come first |
| DBusConnection.Connection.Connect | connection.c:239-249 | is the Connect step |
| DBusConnection.Connection.DoConnect | connection.c:461-485 | is the do_connect step |
| DBusConnection.Connection.DoReconnect | connection.c:427-459 | is the do_reconnect step; it returns true exactly with reconnects on in status 2, or in status 1 with a bus or an address; the timer goes otherwise |
| DBusConnection.Connection.FinishBusGet | connection.c:386-403 | what counts as a connection, and that no reference is lost on errors |
| DBusConnection.Connection.OnBusGet | connection.c:379-425 | is the on_bus_get step |
| DBusConnection.Connection.OnNameLost | connection.c:327-351 | is the on_name_lost step |
| DBusConnection.Connection.OnNameLostClose | connection.c:353-377 | is the on_name_lost_close step, called directly or by GLib |
| DBusConnection.Connection.RegisterObjects | connection.c:276-284 | the loop over the objects, nothing without a connection |
| DBusConnection.Connection.UnregisterObjects | connection.c:286-294 | the loop over the objects, nothing without a connection |
| DBusConnection.Connection.DoFlush | connection.c:534-544 | is the do_flush step |
| DBusConnection.Connection.OnFlush | connection.c:546-566 | is the on_flush step |
| DBusConnection.Connection.DoDisconnect | connection.c:487-511 | is the do_disconnect step |
| DBusConnection.Connection.OnDisconnectClose | connection.c:513-532 | is the on_disconnect_close step, called directly or by GLib |
| DBusConnection.Connection.BeginDisconnect | connection.c:257-267 | is the Disconnect step |
| DBusConnection.Connection.Disconnect | connection.c:251-274 | on a connection it returns and leaves no connection, no id, no name, no reconnecting; in status 1 and 2 on a message bus it returns and only ends reconnecting; in status 0 it does nothing |
| DBusConnection.Connection.DispatchEmit | connection.c:568-622 | a dispatched do_emit_signal empties the queue in order, keeps the handler invariant and wakes the flushing thread |
| DBusConnection.Connection.DispatchCall | connection.c:624-667 | the same for do_call_method |
| DBusConnection.Connection.Dispatch | connection.c:327-566 | every callback of the main loop, called when it is pending, is its step and keeps the invariant |
| DBusConnection.Connection.WaitForDisconnect | connection.c:269-271 | each wait keeps the invariant and brings the end nearer |
| ListWalk.MoveAll | connection.c:589-598 | taking the first object out and adding it to another list until there is none moves all, in order, both lists well formed |
| ListWalk.DealingNext | connection.c:644-662 | deleting while walking: the next pointer stays right, and what is left is a filter of what has been seen |
| ListWalk.DealingEnds | connection.c:644-662 | at the end the list is the filter of the old one |
| Sequences.MoveToMeaning | libvdr-tools.c:1917-1939 | a moved element ends up at the target index and the others keep their order |
| Sequences.MoveToInverse | libvdr-tools.c:1917-1939 | moving back is the inverse; nothing is lost or duplicated |
| CList.LinkedIn | libvdr-tools.c:1868-1898 | links around one new node make the chain with that node inserted |
| CList.ListObject.Unlink | libvdr-tools.c:1834-1841 | the rest of the chain stays well formed |
| CList.ListObject.Index | libvdr-tools.c:1843-1853 | the node's position |
| CList.ListBase.Add | libvdr-tools.c:1868-1882 | the node goes to the end or behind After; count, both ends and all links agree |
| CList.ListBase.Ins | libvdr-tools.c:1884-1898 | the node goes to the front or in front of Before |
| CList.ListBase.Del | libvdr-tools.c:1900-1910 | exactly this node goes |
| CList.ListBase.Get | libvdr-tools.c:1952-1960 | the node at the index, or NULL; the inverse of Index |
| CList.ListBase.Move | libvdr-tools.c:1912-1915 | for all positions: source to target, positions outside leave the list alone |
| CList.ListBase.MoveObject | libvdr-tools.c:1917-1939 | the same for nodes, head, tail and neighbours included |
| CList.ListBase.Clear | libvdr-tools.c:1941-1950 | every node is deleted once, first to last |
| CList.ListBase.Sort | libvdr-tools.c:1969-1986 | a sorted permutation in a well-formed list |
| CList.ListBase.Rebuild | libvdr-tools.c:1980-1985 | unlinking from the old chain and adding to the new one, node by node, ends in a well-formed list of the given order |
| CList.ListBase.TakeOver | libvdr-tools.c:1982-1984 | one round: the rest of the old chain stays well formed, the new list is well formed and one longer, and they share no node |
| CList.NextInRest | libvdr-tools.c:1981-1985 | the next node is still in the old chain and no node already added is |
| CHash.HashBase.Add | libvdr-tools.c:2002-2008 | appends one pair; each bucket is a well-formed list with the subsequence of its hash, and shares nothing with the others |
| CHash.HashBase.Del | libvdr-tools.c:2010-2021 | removes the first pair of the bucket that holds the object |
| CHash.RemoveNode | libvdr-tools.c:2014-2019 | deleting the first matching node removes the first matching value |
| CHash.HashBase.Clear | libvdr-tools.c:2023-2029 | no pair and no bucket is left |
| CHash.LookupFirst | libvdr-tools.c:2031-2041 | a lookup gives an object if and only if the first entry with the id holds it, and nothing if and only if no entry has the id |
| CHash.GetAfterAdd | libvdr-tools.c:2002-2041 | in every run, Get after Add: the new object for an id that had no entry, and for every other id what it was |
| CHash.GetAfterDel | libvdr-tools.c:2010-2041 | in every run with one id per object, Get after Del: other ids are not affected, and the earliest entry of the object goes |
| CHash.GetAfterClear | libvdr-tools.c:2023-2041 | Get after Clear gives nothing |
| CHash.HashBase.Get | libvdr-tools.c:2031-2041 | the earliest surviving pair with that id |
| CHash.HashBase.GetList | libvdr-tools.c:2043-2046 | the bucket |
| CHash.DelInBuckets | libvdr-tools.c:2010-2021 | removing from one bucket is removing from the flat list, seen through every bucket |
| CHash.DelRemovesPair | libvdr-tools.c:2010-2021 | Del(o, id) removes the earliest (id, o) pair if and only if the bucket's first entry of o, if any, is stored under id |
| CHash.DelOtherPairExample | libvdr-tools.c:2010-2021 | an object under two ids of a bucket: the pair of the other id goes |
| CHash.RunIsAssocRun | libvdr-tools.c:2002-2029 | every run of Add, Del and Clear that names each object with one id is a run of an association list |
| Utf8.CharSetShape | libvdr-tools.c:674-706 | lead and continuation bytes of an encoded code point, as in section 3 of RFC 3629 |
| Utf8.CharGetSet | libvdr-tools.c:645-706 | wherever a code point was encoded, Utf8CharLen finds its length and Utf8CharGet returns it |
| Utf8.CharLenByValue | libvdr-tools.c:645-657 | by the values of the bytes: a complete symbol of two to four bytes, or a single byte |
| Utf8.CharGetByValue | libvdr-tools.c:659-672 | by the values of the bytes: six bits from each continuation byte, for overlong symbols as well |
| Utf8.IllFormedByte | libvdr-tools.c:659-672 | a byte from 0x80 up that is no symbol gives its value as a signed char, which is no code point and gets lost when it is encoded again |
| Utf8.BoundsAndCount | libvdr-tools.c:721-731 | the symbol boundaries, and which of them are in front of the terminator |
| Utf8.StrLen | libvdr-tools.c:721-731 | the number of symbols |
| Utf8.SymChars | libvdr-tools.c:708-719 | the position after that many symbols; a negative number means all |
| Utf8.StrLenOfSymChars | libvdr-tools.c:708-731 | the first Utf8SymChars(s, k) bytes have min(k, Utf8StrLen(s)) symbols; Utf8SymChars(s, Utf8StrLen(s)) is the byte length |
| Utf8.Strn0Cpy | libvdr-tools.c:733-750 | copies the symbols that fit, terminates them and leaves the rest of the buffer alone, for any bytes and any n |
| Utf8.FittingIsMaximal | libvdr-tools.c:733-750 | no longer prefix of whole symbols fits |
| Utf8Arrays.ToArray | libvdr-tools.c:752-768 | decodes what fits; the whole array afterwards |
| Utf8Arrays.DecodedAt | libvdr-tools.c:757-764 | each slot holds what stands at its own symbol boundary |
| Utf8Arrays.TerminatedIff | libvdr-tools.c:765-767 | the array is terminated whatever it held if and only if the string has fewer symbols than it has slots |
| Utf8Arrays.UnterminatedExample | libvdr-tools.c:752-768 | one symbol, one slot: nothing is written |
| Utf8Arrays.FromArray | libvdr-tools.c:770-796 | encodes what fits, whole symbols only, and what it writes behind them |
| Utf8Arrays.ConvertedIsMaximal | libvdr-tools.c:770-796 | what is converted fits and keeps to the limit, and one code point more would not, unless the buffer is full |
| Utf8Arrays.PutChar | libvdr-tools.c:674-706 | Utf8CharSet writes exactly the bytes of the code point |
| Utf8Arrays.EncodedBounds | libvdr-tools.c:645-706 | the boundaries of an encoded array are where its code points were put |
| Utf8Arrays.DecodeEncoded | libvdr-tools.c:752-796 | decoding an encoded array gives the array back |
| Utf8Arrays.ThereAndBack | libvdr-tools.c:752-796 | Utf8ToArray after Utf8FromArray, with large enough buffers: the same array and count |
| Utf8Check.IsValidUtf8 | helper.c:12-39 | the nested loops compute the verdict; no read behind the terminator inside an iteration |
| Utf8Check.AcceptsEncoded | helper.c:18-37 | on any encoded array every iteration starts on a symbol boundary and the verdict is to accept, without an overrun |
| Utf8Check.VerdictIffGroups | helper.c:18-37 | for every string: accepted if and only if it is a row of whole groups, the terminator stepped over if and only if one more group follows that it cuts off; a lead byte announces 0 to 5 bytes by its value, 0xFE and 0xFF what the group before announced |
| Utf8Check.AnnouncedByOnes | helper.c:19-32 | a lead byte announces one byte less than it has leading one bits, two to six of them |
| Utf8Check.AcceptsIffFormed | helper.c:18-37 | the same by the symbols Utf8CharLen sees, for strings without bytes from 0xF8 up: accepted if and only if every symbol is well formed |
| Utf8Check.OverrunIffCutOff | helper.c:18-37 | for the same strings: the terminator is stepped over if and only if it cuts off a symbol and all in front of that are well formed |
| Utf8Check.OverrunExample | helper.c:33-36 | the shortest string that makes the scan step over the terminator |
| Utf8Check.CarriedOverExample | helper.c:18-37 | the number carried over to 0xFE decides between accepting and stepping over |
| StringEscape.StrEscape | libvdr-tools.c:207-228 | the lazily allocated buffer holds the escaped string |
| StringEscape.EscapeMeaning | libvdr-tools.c:207-228 | every character stays in order, and exactly the special ones get a backslash in front |
| StringEscape.EscapeAppend | libvdr-tools.c:212-225 | escaping works character by character |
| AvahiHelper.Helper.constructor | avahi-helper.h:15-49 | the list is what the parser's function says; empty for NULL |
| AvahiHelper.Helper.Split | avahi-helper.h:25-46 | de-escaping by memmove while splitting, in one buffer, computes that function |
| AvahiHelper.Helper.ScanOne | avahi-helper.h:27-41 | one round: de-escapes, ends an item or goes on, and keeps what the parser still has to produce |
| AvahiHelper.NeedlessBackslashes | avahi-helper.h:27-34 | a backslash stands for the character behind it, special or not, and at the end for itself |
| AvahiHelper.ParseEscaped | avahi-helper.h:27-34 | reading an escaped item gives the item |
| AvahiHelper.GlueKeeps | avahi-helper.h:35-40 | which separators are taken for text |
| AvahiHelper.PrintParse | avahi-helper.h:15-49 | printing and parsing gives the list back if and only if the first and the last item are not empty and no item except possibly the last ends in a backslash |
| AvahiHelper.BackslashExample | avahi-helper.h:35-35 | two items that come back as one |
| AvahiHelper.Helper.Get | avahi-helper.h:52-76 | the n-th value of the key, NULL if there are not so many |
| AvahiHelper.Helper.Count | avahi-helper.h:79-99 | the number of values of the key |
| AvahiHelper.LookupAfterPrintParse | avahi-helper.h:52-99 | pairs printed as key=value and parsed again are found by their keys, in order |
| Base64.DecodeEncode | libvdr-tools.c:1171-1194 | decoding after section 4 of RFC 4648 is the inverse of encoding |
| Base64.TestVectors | libvdr-tools.c:1152-1200 | test vectors of section 10 of RFC 4648 |
| Base64.LastDigits | libvdr-tools.c:1152 | the last two digits of the alphabet |
| Base64.Base64Encoder.NextSextets | libvdr-tools.c:1172-1193 | one round of the loop, with padding, takes up to three bytes and gives their four characters; the index stays a multiple of three |
| Base64.Base64Encoder.NextLine | libvdr-tools.c:1168-1200 | the next line encodes the next bytes, as many as fit, terminated and inside the buffer; NULL leaves everything alone |
| Base64.FetchLine | libvdr-tools.c:1168-1200 | with room for a group, NULL exactly at the end; each line moves on, and has no room for another group unless it is the last |
| Base64.EncodeLines | libvdr-tools.c:1154-1200 | calling NextLine until NULL ends; lines of the promised lengths that together decode to the data |
| BitStream.ReadsCompose | libvdr-tools.c:1204-1219 | reading a + b bits is reading a and then b, with the same final index, across the end of the data too |
| BitStream.AdvanceMeaning | libvdr-tools.c:1204-1219 | reading moves on by the bits there are, up to the number asked for, and stays where it is from the end on |
| BitStream.BitsOfByte | libvdr-tools.c:1204-1219 | eight bits from a byte boundary are that byte |
| BitStream.BitsPastEnd | libvdr-tools.c:1206-1207 | from the end on only ones are read |
| BitStream.BitStream.GetBit | libvdr-tools.c:1204-1211 | one bit and the new index |
| BitStream.BitStream.GetBits | libvdr-tools.c:1213-1219 | the number that the next n bits spell, and the new index |
| BitStream.BitStream.ByteAlign | libvdr-tools.c:1221-1226 | the least multiple of 8 not below the index |
| BitStream.BitStream.WordAlign | libvdr-tools.c:1228-1233 | the least multiple of 16 not below the index |
| BitStream.BitStream.SetLength | libvdr-tools.c:1235-1241 | shortens only |
| CacheWindow.DroppedCovers | libvdr-tools.c:1614-1618 | the widened range drops every byte of the range asked for |
| CacheWindow.ReadSafe | libvdr-tools.c:1628-1684 | a Read keeps all resident bytes in the window; after data the position is in the window, at most two chunks behind its start |
| CacheWindow.RunSafe | libvdr-tools.c:1567-1684 | over every run of successful Seeks and arbitrary Reads |
| CacheWindow.ReadKeepsNear | libvdr-tools.c:1667-1678 | what a Read must not forget: bytes near the position, up to one page of rounding |
| CacheWindow.ReadAheadKept | libvdr-tools.c:1647-1663 | the end of the request is always at least half of the read-ahead in front of the position, and stays where it is if it was already; the read-ahead never shrinks; after a jump the end is at the position |
| CacheWindow.NothingAhead | libvdr-tools.c:1628-1684 | a Read that gets nothing requests nothing and stays where it is |
| CacheWindow.WindowBounded | libvdr-tools.c:1667-1678 | after data the window ends at the read-ahead request or at most two chunks in front of the position, unless its head has just been cut |
| CacheWindow.ReadAheadWhole | libvdr-tools.c:1647-1678 | a request that reaches to the end of the window stays resident as a whole |
| CacheWindow.ReadAheadResident | libvdr-tools.c:1647-1678 | when a Read requests read-ahead, the bytes from the new position on are resident afterwards, up to the end of the request or as far as shrinking leaves them |
| CacheWindow.SafeIffSeeksSucceed | libvdr-tools.c:1620-1684 | the window is safe in every state of a run if and only if no lseek of it fails |
| CacheWindow.ReadAfterFailedSeek | libvdr-tools.c:1620-1684 | after a failed lseek a Read that gets data leaves all resident bytes in the window if and only if the window was empty and the data lie in front of its end, or of its page if the head is dropped |
| CacheWindow.RunInsideIff | libvdr-tools.c:1567-1684 | in every run up to and including the first Read at a lost position no resident byte is outside the window, and none after that Read if and only if it gets nothing, or the window was empty and the data lie in front of its end, or of its page if the head is dropped |
| CacheWindow.RunNonNegative | libvdr-tools.c:1567-1684 | positions are never negative in runs of successful Seeks |
| CacheWindow.FailedSeekExample | libvdr-tools.c:1620-1684 | a run that leaves a resident byte outside the window |
| CacheWindow.UnbufferedFile.Read | libvdr-tools.c:1628-1684 | changes the fields as the Read step |
| CacheWindow.UnbufferedFile.Seek | libvdr-tools.c:1620-1626 | changes the fields as the Seek step, nothing if the position is already there |
| CacheWindow.UnbufferedFile.FadviseDrop | libvdr-tools.c:1614-1618 | drops what the kernel drops of the widened range |
| CMutex.StepKeepsInv | libvdr-thread.c:109-204 | every fine-grained step of disciplined threads keeps owner, counter and nesting depths in agreement |
| CMutex.MutualExclusion | libvdr-thread.c:194-204 | in every interleaving at most one thread owns the mutex, and locked is its nesting depth, 0 if unowned |
| CMutex.WaitRestoresDepth | libvdr-thread.c:109-118 | a thread back from cCondVar::Wait owns the mutex at exactly the depth it had |
| CMutex.WaitReleases | libvdr-thread.c:109-118 | between entering cCondVar::Wait and being back there is a moment in which the mutex is free, its counter 0, and every thread blocked in Lock can go on |
| CMutex.LockProgress | libvdr-thread.c:194-198 | a thread blocks only while another one owns the mutex |
| CMutex.DisciplineIff | libvdr-thread.c:109-204 | a step keeps the invariant if and only if it is not an Unlock or Wait of a thread that has not locked |
| CMutex.UnlockInStepIff | libvdr-thread.c:200-204 | Unlock leaves locked at 0 for a free mutex, and at the owner's depth otherwise, if and only if the caller has a Lock to undo |
| CMutex.UndisciplinedExample | libvdr-thread.c:200-204 | Unlock without Lock leaves a counter of -1 |
| CMutex.LockUnlock | libvdr-thread.c:194-204 | Unlock undoes Lock |
| CMutex.Mutex.Lock | libvdr-thread.c:194-198 | is the thread's steps in a row |
| CMutex.Mutex.Unlock | libvdr-thread.c:200-204 | is the thread's steps in a row |
| CMutex.Mutex.Wait | libvdr-thread.c:109-118 | the state is restored whatever counter others leave behind, for any caller; an owner gives the mutex up meanwhile, with a counter of 0 |
| CMutex.MutexLock.Lock | libvdr-thread.c:367-376 | only the first mutex is locked |
| CMutex.MutexLock.Destroy | libvdr-thread.c:361-365 | unlocks what was locked |
| TextTools.CompactSpaceShape | libvdr-tools.c:190-205 | everything that is not blank stays in order; blanks stay single and not in front |
| TextTools.WhiteSpace | libvdr-tools.c:178-205 | which characters are white space, and which are blanks |
| TextTools.StripKeeps | libvdr-tools.c:178-188 | stripping cuts off all white space at the end and nothing else |
| TextTools.CompactTwice | libvdr-tools.c:190-205 | compacting again changes nothing if and only if no white space is left at the end |
| TextTools.CompactTwiceExample | libvdr-tools.c:190-205 | a control character at the end makes the difference |
| TextTools.CompactSpaceInPlace | libvdr-tools.c:190-205 | the memmove loops compute the compacted string |
| TextTools.StripSpaceInPlace | libvdr-tools.c:178-188 | cuts off white space at the end |
| TextTools.SkipSpaceFrom | libvdr-tools.h:195-202 | the first place that is not blank |
| TextTools.EndsWith | libvdr-tools.c:239-248 | the suffix test, and the one case in which it is not |
| TextTools.EndsWithExample | libvdr-tools.c:239-248 | that case |
| SetupStore.FindSetupLine | setup.c:21-34 | the first line of the key, ignoring case |
| SetupStore.Setup.Get | setup.c:287-343 | 900 and the value of the first line of the key, 501 if there is none |
| SetupStore.Setup.Set | setup.c:402-475 | through Save and Load, the first line of the key is replaced in place, or a line added; 501 and no change if the value is not a string |
| SetupStore.Setup.SetLine | setup.c:432-446 | saving, loading a copy, replacing there, saving and loading again replaces the line in place |
| SetupStore.Replace | setup.c:440-442 | adding the new line behind the old one and deleting the old one |
| SetupStore.Setup.DelPlugin | setup.c:574-592 | removes exactly the plugin's lines |
| SetupStore.RemoveLines | setup.c:578-587 | the loop that deletes while it walks removes exactly the plugin's lines, in order |
| SetupStore.ResolveMeaning | setup.c:288-303 | a name without a dot is the key, for no plugin; otherwise plugin, dot and key are the compacted name, divided at its first dot |
| SetupStore.GetFirst | setup.c:278-343 | Get finds the first line that the name means: the name up to case and no plugin, or plugin, dot and key up to case equal to the compacted name; nothing if and only if there is none |
| SetupStore.SetThenGet | setup.c:278-455 | for names as requests carry them: Get(m) after Set(n, v) is v if n and m mean the same, with and without a dot, and otherwise what it was |
| SetupStore.SetStores | setup.c:428-455 | the line that Set stores, and where: no plugin and the whole name, or the compacted name divided at its first dot |
| SetupStore.DotlessReaches | setup.c:288-303 | a name without a dot never reaches a plugin's line, and Del of a plugin changes the answer for none |
| SetupStore.SameMeaning | setup.c:21-34 | keys are equal up to the case of the letters A to Z |
| SetupStore.ResolvePlain | setup.c:288-303 | plugin and key of a compact name; the first dot separates |
| SetupStore.GetAfterSet | setup.c:278-455 | Get after Set: the new value under every spelling of the key, the old one under every other key |
| SetupStore.SetKeepsOthers | setup.c:428-455 | lines of other keys stay, in order; a line is added only for a key without one |
| SetupStore.SetTwice | setup.c:428-455 | setting twice is setting once |
| SetupStore.GetAfterDel | setup.c:574-592 | Get after Del of a plugin: none of its keys, every other one as before |
| SetupStore.ResolvePlugin | setup.c:296-301 | the plugin of a name is what stands in front of its first dot, compacted |
| SetupStore.DelReachesPlugin | setup.c:574-577 | Del("n.*") removes all that Set and Get address as n.key if and only if n has no dot, no blank in front and no two blanks in a row |
| SetupStore.DelDoesNotCompact | setup.c:574-577 | a blank in front of the name hides the plugin from Del |
| SetupStore.DelTakesDots | setup.c:574-577 | a dot in the name hides it as well |

## Left out

- The lists of the connection's objects and of registration ids are sequences, and a call that waits for its reply is a value: their nodes and aliasing are not captured.
- The connection's transition systems treat what runs under `_flush_mutex`, and a main-loop callback apart from `do_emit_signal` and `do_call_method`, as one step; memory-order effects of the unprotected `_connect_status` are not modelled.
- GLib, GDBus and pthread are taken at their documented word: sources, timers, asynchronous results, conditions with spurious wake-ups, an error-checking mutex.
- Callers the connection does not serve: `Connect` while connected or connecting, a name lost while disconnecting, two threads in `Flush`. Runs have `Disconnect` on a connection only; `EarlyDisconnect` has runs of the life cycle after one without a connection.
- DBusConnection.Connection.Flush: a method that is proved to return, so that the states in which Flush need not return are left to `Flushing.FlushReturnsIff` and `Flushing.FlushDuringDisconnect`; nothing is submitted during the call, whereas `Flushing` and `Flushing.FlushMeaning` have every interleaving.
- DBusConnection.Connection.WaitForFlush: the bus answers, and nothing is submitted meanwhile; both are left open in `Flushing`.
- DBusConnection.Connection.Disconnect: with an address in status 1 and 2 it need not return, which `EarlyDisconnect.EarlyReturnsIff` and `EarlyDisconnect.EarlySureIff` state; in status 2 the class has the order in which do_disconnect comes before the answer.
- CacheWindow.ReadKeepsNear: near the start of the file `FadviseDrop` passes a negative offset, for which `posix_fadvise` documents nothing; the model drops what lies in the range there as everywhere. `Dropped` and the lemmas about what stays resident depend on that.
- Workers: any batch may send next, which includes every choice of the pool of ten threads and the fallback that sends in the main loop.
- Watchers, subscriptions, user callbacks and the connection's destructor.
- `TimedWait` takes the steps of `Wait`, except that it does nothing if the clock fails; its result is not modelled.
- CList.Qsort: stands for the C library's `qsort`; `Sort` uses only its contract.
- Integer overflow of positions, counts and indices (`int`, `off_t`, `size_t`); code points and bytes are bit vectors.
- The system character table: all UTF-8 functions are modelled without one.
- Utf8Check.AcceptsIffFormed: speaks of strings without bytes from 0xF8 up, where `Utf8CharLen` and the scan divide a string alike; `Utf8Check.VerdictIffGroups` covers all strings.
- Utf8Check.OverrunIffCutOff: the same.
- CacheWindow.UnbufferedFile.FadviseDrop: the kernel is taken to drop the pages that lie completely inside the range it is given; results of `posix_fadvise` are ignored, as the source ignores them.
- Page rounding of reads: a read and a read-ahead request make exactly the requested bytes resident, whereas dropping works on whole pages.
- `cUnbufferedFile::Write` and `Close`; `SkipBits` with a negative number; `GetBits` of more than 32 bits.
- Base64 line lengths below 4, for which `NextLine` always returns NULL, have no further claims than that.
- Setup names with a binding, loaded plugins, and `Del` of a single line, whose parser is not part of this repository; `Save` and `Load` are taken to be faithful; case is ignored for ASCII letters only.
- `channel.c`, `device.c`, `epg.c`, `recording.c`, `remote.c`, `skin.c`, `timer.c`, `status.c`, `plugin.c`, `osd.c`, `shutdown.c`: they build variants and call VDR, which is not part of this repository.
- The rest of `libvdr-tools.c` and `libvdr-thread.c`: files, processes, images, time, character set conversion, read-write locks and threads.
