/** object.c: the ids under which the interfaces of an object are registered with GDBus. */
module Registration {
  import opened Options

  /** What GDBus keeps for a connection: the next id to give out and the ids in use. */
  datatype Registry = Registry(nextId: nat, live: set<nat>)

  ghost predicate RegistryValid(r: Registry) {
    r.nextId > 0 && 0 !in r.live && forall x | x in r.live :: x < r.nextId
  }

  /** g_dbus_connection_register_object returns 0 if it fails. */
  function RegisterOne(r: Registry, ok: bool): (Registry, nat) {
    if ok then (Registry(r.nextId + 1, r.live + {r.nextId}), r.nextId) else (r, 0)
  }

  function RegisterAll(r: Registry, oks: seq<bool>): (res: (Registry, seq<nat>))
    ensures |res.1| == |oks|
  {
    if oks == [] then (r, []) else
      var (r1, ids) := RegisterAll(r, oks[..|oks| - 1]);
      var (r2, id) := RegisterOne(r1, oks[|oks| - 1]);
      (r2, ids + [id])
  }

  function UnregisterOne(r: Registry, id: nat): Registry {
    if id != 0 then r.(live := r.live - {id}) else r
  }

  function UnregisterAll(r: Registry, ids: seq<nat>): Registry {
    if ids == [] then r else UnregisterOne(UnregisterAll(r, ids[..|ids| - 1]), ids[|ids| - 1])
  }

  /** The ids of an array that stand for a registration. */
  ghost function IdSet(ids: seq<nat>): set<nat> {
    set x | x in ids && x != 0
  }

  /** No registration appears twice in the array. */
  ghost predicate NoTwice(ids: seq<nat>) {
    forall i, j :: 0 <= i < j < |ids| && ids[i] == ids[j] ==> ids[i] == 0
  }

  /** Registering gives each interface for which it succeeds a fresh id of its own, and the others 0. */
  lemma {:induction false} RegisterAllMeaning(r: Registry, oks: seq<bool>)
    requires RegistryValid(r)
    ensures var (r', ids) := RegisterAll(r, oks);
            && RegistryValid(r') && r'.nextId >= r.nextId
            && r'.live == r.live + IdSet(ids) && IdSet(ids) !! r.live && NoTwice(ids)
            && (forall x | x in IdSet(ids) :: r.nextId <= x < r'.nextId)
            && forall i :: 0 <= i < |oks| ==> (ids[i] != 0 <==> oks[i])
  {
    if oks != [] {
      var init := oks[..|oks| - 1];
      RegisterAllMeaning(r, init);
      var (r1, ids1) := RegisterAll(r, init);
      var (r2, id) := RegisterOne(r1, oks[|oks| - 1]);
      assert IdSet(ids1 + [id]) == IdSet(ids1) + if id != 0 then {id} else {};
    }
  }

  /** Unregistering an array removes exactly its ids. */
  lemma {:induction false} UnregisterAllMeaning(r: Registry, ids: seq<nat>)
    ensures UnregisterAll(r, ids) == r.(live := r.live - IdSet(ids))
  {
    if ids != [] {
      var init, id := ids[..|ids| - 1], ids[|ids| - 1];
      UnregisterAllMeaning(r, init);
      assert ids == init + [id];
      assert IdSet(ids) == IdSet(init) + if id != 0 then {id} else {};
    }
  }

  /** Unregister undoes Register, except that the ids stay used. */
  lemma RegisterUnregister(r: Registry, oks: seq<bool>)
    requires RegistryValid(r)
    ensures var (r', ids) := RegisterAll(r, oks); UnregisterAll(r', ids).live == r.live
  {
    RegisterAllMeaning(r, oks);
    var (r', ids) := RegisterAll(r, oks);
    UnregisterAllMeaning(r', ids);
  }

  /** An object's Unregister: the array is freed in any case, its ids only while there is a connection. */
  function UnregisterObject(r: Registry, ids: Option<seq<nat>>): Registry {
    match ids
    case None => r
    case Some(a) => UnregisterAll(r, a)
  }

  function RegisterObject(r: Registry, ids: Option<seq<nat>>, oks: seq<bool>): (Registry, seq<nat>) {
    RegisterAll(UnregisterObject(r, ids), oks)
  }

  /** Registering an object again gives up its old registrations first, and its new ids are new. */
  lemma RegisterAgain(r: Registry, old_: seq<nat>, oks: seq<bool>)
    requires RegistryValid(r) && IdSet(old_) <= r.live
    ensures var (r', ids) := RegisterObject(r, Some(old_), oks);
            && RegistryValid(r') && r'.live == r.live - IdSet(old_) + IdSet(ids) && IdSet(ids) !! r.live
            && |ids| == |oks| && NoTwice(ids) && forall i :: 0 <= i < |oks| ==> (ids[i] != 0 <==> oks[i])
  {
    UnregisterAllMeaning(r, old_);
    RegisterAllMeaning(UnregisterAll(r, old_), oks);
  }

  class Bus {
    var registry: Registry

    constructor ()
      ensures registry == Registry(1, {})
    {
      registry := Registry(1, {});
    }
  }

  class DBusObject {
    const interfaces: nat
    var registrationIds: Option<seq<nat>>

    constructor (interfaces: nat)
      ensures this.interfaces == interfaces && registrationIds == None
    {
      this.interfaces := interfaces;
      registrationIds := None;
    }

    /** Register; bus is the GDBusConnection or NULL, and oks says which registrations GDBus accepts. */
    method Register(bus: Bus?, oks: seq<bool>)
      requires |oks| == interfaces
      modifies this, bus
      ensures bus == null ==> registrationIds == old(registrationIds)
      ensures bus != null ==> registrationIds.Some? && |registrationIds.value| == interfaces
      ensures bus != null ==> (bus.registry, registrationIds.value) ==
                              RegisterObject(old(bus.registry), old(registrationIds), oks)
    {
      if bus == null {
        return;
      }
      if registrationIds.Some? {
        Unregister(bus);
      }
      ghost var r := bus.registry;
      registrationIds := Some([]);
      assert oks[..0] == [];
      for i := 0 to interfaces
        invariant registrationIds.Some? && (bus.registry, registrationIds.value) == RegisterAll(r, oks[..i])
      {
        assert oks[..i + 1][..i] == oks[..i];
        var (r', id) := RegisterOne(bus.registry, oks[i]);
        bus.registry := r';
        registrationIds := Some(registrationIds.value + [id]);
      }
      assert oks[..interfaces] == oks;
    }

    method Unregister(bus: Bus?)
      modifies this, bus
      ensures registrationIds == None
      ensures bus != null ==> bus.registry == UnregisterObject(old(bus.registry), old(registrationIds))
    {
      if registrationIds.Some? {
        var ids := registrationIds.value;
        if bus != null {
          assert ids[..0] == [];
          for i := 0 to |ids|
            invariant bus.registry == UnregisterAll(old(bus.registry), ids[..i])
            invariant registrationIds == old(registrationIds)
          {
            assert ids[..i + 1][..i] == ids[..i];
            var id := ids[i];
            if id != 0 {
              bus.registry := UnregisterOne(bus.registry, id);
            }
          }
          assert ids[..|ids|] == ids;
        }
        registrationIds := None;
      }
    }
  }

  // --- all objects of a connection ------------------------------------------

  ghost function AllIds(objects: seq<Option<seq<nat>>>): set<nat> {
    if objects == [] then {} else
      AllIds(objects[..|objects| - 1]) + match objects[|objects| - 1] case None => {} case Some(a) => IdSet(a)
  }

  /** RegisterObjects: one object after the other. */
  function RegisterObjects(r: Registry, objects: seq<Option<seq<nat>>>, oks: seq<seq<bool>>):
      (res: (Registry, seq<Option<seq<nat>>>))
    requires |oks| == |objects|
    ensures |res.1| == |objects|
  {
    if objects == [] then (r, []) else
      var n := |objects| - 1;
      var (r1, done) := RegisterObjects(r, objects[..n], oks[..n]);
      var (r2, ids) := RegisterObject(r1, objects[n], oks[n]);
      (r2, done + [Some(ids)])
  }

  function UnregisterObjects(r: Registry, objects: seq<Option<seq<nat>>>): Registry {
    if objects == [] then r else
      UnregisterObject(UnregisterObjects(r, objects[..|objects| - 1]), objects[|objects| - 1])
  }

  function NoIds(n: nat): seq<Option<seq<nat>>> {
    seq(n, _ => None)
  }

  /** No registration appears twice, neither in one object's array nor in two of them. */
  ghost predicate NotShared(objects: seq<Option<seq<nat>>>) {
    && (forall i :: 0 <= i < |objects| && objects[i].Some? ==> NoTwice(objects[i].value))
    && (forall i, j :: 0 <= i < j < |objects| && objects[i].Some? && objects[j].Some? ==>
                         IdSet(objects[i].value) !! IdSet(objects[j].value))
  }

  lemma {:induction false} OneOfAll(objects: seq<Option<seq<nat>>>, k: nat)
    requires k < |objects| && objects[k].Some?
    ensures IdSet(objects[k].value) <= AllIds(objects)
  {
    var n := |objects| - 1;
    if k < n {
      assert objects[..n][k] == objects[k];
      OneOfAll(objects[..n], k);
    }
  }

  lemma NotSharedNext(done: seq<Option<seq<nat>>>, ids: seq<nat>)
    requires NotShared(done) && NoTwice(ids) && IdSet(ids) !! AllIds(done)
    ensures NotShared(done + [Some(ids)])
  {
    hide IdSet, NoTwice;
    forall k | 0 <= k < |done| && done[k].Some?
      ensures IdSet(done[k].value) !! IdSet(ids)
    {
      OneOfAll(done, k);
    }
  }

  /** Every interface of every object has its own id, 0 exactly where GDBus refused it. */
  ghost predicate Accepted(objects: seq<Option<seq<nat>>>, oks: seq<seq<bool>>) {
    && |objects| == |oks|
    && forall i :: 0 <= i < |oks| ==>
                     && objects[i].Some? && |objects[i].value| == |oks[i]|
                     && forall m :: 0 <= m < |oks[i]| ==> (objects[i].value[m] != 0 <==> oks[i][m])
  }

  /** Registering objects that are not registered: one array per object with one id per interface, no id shared. */
  lemma {:induction false} RegisterObjectsMeaning(r: Registry, n: nat, oks: seq<seq<bool>>)
    requires RegistryValid(r) && |oks| == n
    ensures var (r', objects) := RegisterObjects(r, NoIds(n), oks);
            && RegistryValid(r') && r'.nextId >= r.nextId
            && r'.live == r.live + AllIds(objects) && AllIds(objects) !! r.live
            && Accepted(objects, oks) && NotShared(objects)
  {
    hide IdSet, NoTwice, RegisterAll;
    if n > 0 {
      assert NoIds(n)[..n - 1] == NoIds(n - 1);
      RegisterObjectsMeaning(r, n - 1, oks[..n - 1]);
      var (r1, done) := RegisterObjects(r, NoIds(n - 1), oks[..n - 1]);
      RegisterAllMeaning(r1, oks[n - 1]);
      var (r2, ids) := RegisterObject(r1, None, oks[n - 1]);
      var objects := done + [Some(ids)];
      assert objects[..|objects| - 1] == done;
      NotSharedNext(done, ids);
    }
  }

  lemma {:induction false} UnregisterObjectsMeaning(r: Registry, objects: seq<Option<seq<nat>>>)
    ensures UnregisterObjects(r, objects) == r.(live := r.live - AllIds(objects))
  {
    if objects != [] {
      UnregisterObjectsMeaning(r, objects[..|objects| - 1]);
      match objects[|objects| - 1]
      case None =>
      case Some(a) => UnregisterAllMeaning(UnregisterObjects(r, objects[..|objects| - 1]), a);
    }
  }
}
