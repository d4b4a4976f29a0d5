/** The Bluetooth service's view of BlueZ: which managed objects become the
  * adapter's devices, the paired and connected sub-lists, when a new state is
  * worth announcing, and the bookkeeping of pairings in progress. BlueZ's
  * D-Bus replies are passed in; the order in which Go visits the managed
  * objects map is taken as a sequence. */
module BluezManager {
  import opened Common
  import opened Strs
  import Sorting

  datatype Device = Device(
    Path: string, Address: string, Name: string, Alias: string, Paired: bool, Trusted: bool,
    Blocked: bool, Connected: bool, Class: nat, Icon: string, RSSI: int, LegacyPairing: bool)

  datatype BluetoothState = BluetoothState(
    Powered: bool, Discovering: bool, Devices: seq<Device>, PairedDevices: seq<Device>,
    ConnectedDevices: seq<Device>)

  /** The D-Bus property values the service reads. */
  datatype Value = VBool(b: bool) | VString(s: string) | VUint32(u32: nat) | VInt16(i16: int) | VOther

  type Properties = map<string, Value>

  /** One managed object: its path and its interfaces' properties. */
  datatype ManagedObject = ManagedObject(path: string, interfaces: map<string, Properties>)

  const Device1Iface: string := "org.bluez.Device1"

  function StrProp(props: Properties, key: string): string
  {
    if key in props && props[key].VString? then props[key].s else ""
  }

  function BoolProp(props: Properties, key: string): bool
  {
    key in props && props[key].VBool? && props[key].b
  }

  /** `deviceFromProps`: each property of the expected type fills its field,
    * the rest keep Go's zero values. */
  function DeviceFromProps(path: string, props: Properties): (d: Device)
    ensures d.Path == path
    ensures d.Paired <==> "Paired" in props && props["Paired"] == VBool(true)
    ensures d.Connected <==> "Connected" in props && props["Connected"] == VBool(true)
    ensures d.Name == StrProp(props, "Name") && d.Address == StrProp(props, "Address")
    ensures "RSSI" in props && props["RSSI"].VInt16? ==> d.RSSI == props["RSSI"].i16
    ensures !("RSSI" in props && props["RSSI"].VInt16?) ==> d.RSSI == 0
  {
    Device(path, StrProp(props, "Address"), StrProp(props, "Name"), StrProp(props, "Alias"),
           BoolProp(props, "Paired"), BoolProp(props, "Trusted"), BoolProp(props, "Blocked"),
           BoolProp(props, "Connected"),
           if "Class" in props && props["Class"].VUint32? then props["Class"].u32 else 0,
           StrProp(props, "Icon"),
           if "RSSI" in props && props["RSSI"].VInt16? then props["RSSI"].i16 else 0,
           BoolProp(props, "LegacyPairing"))
  }

  /** Whether a managed object is a device of the adapter: it has the device
    * interface and its path lies below the adapter's. */
  predicate IsAdapterDevice(adapterPath: string, obj: ManagedObject)
    ensures IsAdapterDevice(adapterPath, obj) ==> |obj.path| > |adapterPath| && obj.path != adapterPath
  {
    Device1Iface in obj.interfaces && HasPrefix(obj.path, adapterPath + "/")
  }

  /** The adapter's devices among the managed objects, in order. */
  function Listed(adapterPath: string, objects: seq<ManagedObject>): (ds: seq<Device>)
    ensures |ds| <= |objects|
    ensures forall k :: 0 <= k < |ds| ==> HasPrefix(ds[k].Path, adapterPath + "/")
    ensures forall o :: o in objects && IsAdapterDevice(adapterPath, o) ==>
              DeviceFromProps(o.path, o.interfaces[Device1Iface]) in ds
    ensures forall d :: d in ds ==>
              exists o :: o in objects && IsAdapterDevice(adapterPath, o) && d == DeviceFromProps(o.path, o.interfaces[Device1Iface])
  {
    if |objects| == 0 then []
    else
      var init, last := objects[..|objects| - 1], objects[|objects| - 1];
      assert objects == init + [last];
      Listed(adapterPath, init)
      + (if IsAdapterDevice(adapterPath, last) then [DeviceFromProps(last.path, last.interfaces[Device1Iface])] else [])
  }

  lemma ListedAppend(adapterPath: string, objects: seq<ManagedObject>, o: ManagedObject)
    ensures Listed(adapterPath, objects + [o]) ==
            Listed(adapterPath, objects)
            + (if IsAdapterDevice(adapterPath, o) then [DeviceFromProps(o.path, o.interfaces[Device1Iface])] else [])
  {
    assert (objects + [o])[..|objects|] == objects;
  }

  function IsPaired(d: Device): bool { d.Paired }

  function IsConnected(d: Device): bool { d.Connected }

  /** `stateChanged`: the power and discovery flags, the three list lengths,
    * and device by device the path and the paired and connected flags;
    * nothing else. */
  function StateChanged(prev: BluetoothState, next: BluetoothState): (changed: bool)
    ensures !changed <==>
              prev.Powered == next.Powered && prev.Discovering == next.Discovering
              && |prev.Devices| == |next.Devices| && |prev.PairedDevices| == |next.PairedDevices|
              && |prev.ConnectedDevices| == |next.ConnectedDevices|
              && forall i :: 0 <= i < |prev.Devices| ==> SameListing(prev.Devices[i], next.Devices[i])
  {
    if prev.Powered != next.Powered then true
    else if prev.Discovering != next.Discovering then true
    else if |prev.Devices| != |next.Devices| then true
    else if |prev.PairedDevices| != |next.PairedDevices| then true
    else if |prev.ConnectedDevices| != |next.ConnectedDevices| then true
    else DevicesDifferFrom(prev.Devices, next.Devices, 0)
  }

  predicate SameListing(a: Device, b: Device)
  {
    a.Path == b.Path && a.Paired == b.Paired && a.Connected == b.Connected
  }

  /** The device loop of `stateChanged` from index `i` on. */
  function DevicesDifferFrom(o: seq<Device>, n: seq<Device>, i: nat): (differ: bool)
    requires |o| == |n| && i <= |o|
    ensures !differ <==> forall k :: i <= k < |o| ==> SameListing(o[k], n[k])
    decreases |o| - i
  {
    if i == |o| then false
    else if o[i].Path != n[i].Path then true
    else if o[i].Paired != n[i].Paired then true
    else if o[i].Connected != n[i].Connected then true
    else DevicesDifferFrom(o, n, i + 1)
  }

  /** A rename, a new signal strength or a trust change alone is not
    * announced. */
  lemma StateChangedIgnoresDetails(s: BluetoothState, i: nat, name: string, rssi: int, trusted: bool)
    requires i < |s.Devices|
    ensures !StateChanged(s, s)
    ensures !StateChanged(s, s.(Devices := s.Devices[i := s.Devices[i].(Name := name, RSSI := rssi, Trusted := trusted)]))
  {
  }

  /** An event the handlers hand to the service's event worker. */
  datatype Event = AutoConnect(path: string) | RefreshDevices

  /** The service's mutable state: the published state, the paths with a
    * pairing in progress, and the events queued for the worker. */
  class Manager {
    const adapterPath: string
    var state: BluetoothState
    var pendingPairings: set<string>
    var eventQueue: seq<Event>

    constructor (adapter: string)
      ensures adapterPath == adapter
      ensures state == BluetoothState(false, false, [], [], []) && pendingPairings == {} && eventQueue == []
    {
      adapterPath := adapter;
      state := BluetoothState(false, false, [], [], []);
      pendingPairings := {};
      eventQueue := [];
    }

    /** `updateDevices`, given BlueZ's managed objects: a failed call changes
      * nothing; otherwise the adapter's devices in order, and the paired
      * and the connected ones among them, each in the same order. */
    method UpdateDevices(objects: Result<seq<ManagedObject>>) returns (err: Option<string>)
      modifies this`state
      ensures objects.Err? ==> err == Some(objects.msg) && state == old(state)
      ensures objects.Ok? ==>
                err == None
                && state == old(state).(Devices := Listed(adapterPath, objects.value),
                                        PairedDevices := Sorting.Filter(Listed(adapterPath, objects.value), IsPaired),
                                        ConnectedDevices := Sorting.Filter(Listed(adapterPath, objects.value), IsConnected))
    {
      if objects.Err? {
        return Some(objects.msg);
      }
      var objs := objects.value;
      var devices: seq<Device> := [];
      var paired: seq<Device> := [];
      var connected: seq<Device> := [];
      var i := 0;
      while i < |objs|
        invariant 0 <= i <= |objs|
        invariant devices == Listed(adapterPath, objs[..i])
        invariant paired == Sorting.Filter(devices, IsPaired)
        invariant connected == Sorting.Filter(devices, IsConnected)
        invariant state == old(state)
      {
        assert objs[..i + 1] == objs[..i] + [objs[i]];
        ListedAppend(adapterPath, objs[..i], objs[i]);
        var obj := objs[i];
        if Device1Iface in obj.interfaces && HasPrefix(obj.path, adapterPath + "/") {
          var dev := DeviceFromProps(obj.path, obj.interfaces[Device1Iface]);
          Sorting.FilterAppend(devices, dev, IsPaired);
          Sorting.FilterAppend(devices, dev, IsConnected);
          devices := devices + [dev];
          if dev.Paired {
            paired := paired + [dev];
          }
          if dev.Connected {
            connected := connected + [dev];
          }
        }
        i := i + 1;
      }
      assert objs[..i] == objs;
      state := state.(Devices := devices, PairedDevices := paired, ConnectedDevices := connected);
      return None;
    }

    /** `handleAdapterPropertiesChanged`: a boolean `Powered` or
      * `Discovering` replaces its flag; the result says whether anything
      * was taken (and so whether subscribers are notified). */
    method HandleAdapterPropertiesChanged(changed: Properties) returns (dirty: bool)
      modifies this`state
      ensures state == old(state).(
                Powered := if "Powered" in changed && changed["Powered"].VBool? then changed["Powered"].b else old(state).Powered,
                Discovering := if "Discovering" in changed && changed["Discovering"].VBool? then changed["Discovering"].b
                               else old(state).Discovering)
      ensures dirty <==> ("Powered" in changed && changed["Powered"].VBool?)
                         || ("Discovering" in changed && changed["Discovering"].VBool?)
    {
      dirty := false;
      if "Powered" in changed && changed["Powered"].VBool? {
        state := state.(Powered := changed["Powered"].b);
        dirty := true;
      }
      if "Discovering" in changed && changed["Discovering"].VBool? {
        state := state.(Discovering := changed["Discovering"].b);
        dirty := true;
      }
    }

    /** `handleDevicePropertiesChanged`: a device reported paired that had a
      * pairing in progress loses its mark and is queued for connecting; a
      * change to its pairing, connection or trust queues a refresh of the
      * device list. */
    method HandleDevicePropertiesChanged(path: string, changed: Properties)
      modifies this`pendingPairings, this`eventQueue
      ensures var nowPaired := "Paired" in changed && changed["Paired"] == VBool(true);
              var wasPending := nowPaired && path in old(pendingPairings);
              var refresh := "Paired" in changed || "Connected" in changed || "Trusted" in changed;
              pendingPairings == (if wasPending then old(pendingPairings) - {path} else old(pendingPairings))
              && eventQueue == old(eventQueue) + (if wasPending then [AutoConnect(path)] else [])
                                               + (if refresh then [RefreshDevices] else [])
    {
      var hasPaired := "Paired" in changed;
      if hasPaired && changed["Paired"] == VBool(true) {
        var wasPending := path in pendingPairings;
        if wasPending {
          pendingPairings := pendingPairings - {path};
          eventQueue := eventQueue + [AutoConnect(path)];
        }
      }
      if hasPaired || "Connected" in changed || "Trusted" in changed {
        eventQueue := eventQueue + [RefreshDevices];
      }
    }

    /** `PairDevice`, given the error, if any, of BlueZ's `Pair` call: the
      * path is marked as pairing for the duration of the call, and the mark
      * stays only if the call succeeded. */
    method PairDevice(devicePath: string, pairErr: Option<string>) returns (err: Option<string>)
      modifies this`pendingPairings
      ensures err == pairErr
      ensures pairErr.None? ==> pendingPairings == old(pendingPairings) + {devicePath}
      ensures pairErr.Some? ==> pendingPairings == old(pendingPairings) - {devicePath}
    {
      pendingPairings := pendingPairings + {devicePath};
      if pairErr.Some? {
        pendingPairings := pendingPairings - {devicePath};
      }
      return pairErr;
    }
  }

  /** A successful pairing followed by BlueZ reporting the device paired
    * leaves no mark and queues one connection attempt. */
  method PairThenPaired(m: Manager, path: string)
    requires path !in m.pendingPairings
    modifies m
    ensures m.pendingPairings == old(m.pendingPairings)
    ensures m.eventQueue == old(m.eventQueue) + [AutoConnect(path), RefreshDevices]
  {
    var _ := m.PairDevice(path, None);
    m.HandleDevicePropertiesChanged(path, map["Paired" := VBool(true)]);
  }

  /** Every listed device lies below the adapter, and the paired and
    * connected lists hold exactly the listed devices with that flag. */
  lemma UpdatedListsAreSublists(adapterPath: string, objects: seq<ManagedObject>, d: Device)
    ensures var ds := Listed(adapterPath, objects);
            (d in Sorting.Filter(ds, IsPaired) <==> d in ds && d.Paired)
            && (d in Sorting.Filter(ds, IsConnected) <==> d in ds && d.Connected)
  {
    var ds := Listed(adapterPath, objects);
    Sorting.FilterMembers(ds, IsPaired, d);
    Sorting.FilterMembers(ds, IsConnected, d);
  }
}
