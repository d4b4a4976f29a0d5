/** The brightness manager: the published device list is kept sorted by
  * class and name, replaced only when a device appeared, vanished or
  * changed its raw level or maximum, and updated by set and step
  * requests. */
module BrightnessManager {
  import opened Common
  import opened BrightnessTypes
  import Strs
  import Sorting
  import UtilsMath

  // ---------------------------------------------------------------------
  // Ordering

  /** The order of the classes; a class not in the table counts as 0. */
  function ClassOrder(c: string): (n: int)
    ensures 0 <= n <= 2
    ensures c == ClassDDC <==> n == 1
    ensures c == ClassLED <==> n == 2
  {
    if c == ClassDDC then 1 else if c == ClassLED then 2 else 0
  }

  /** The comparator of `sortDevices`: by class order, then by name. */
  predicate DeviceLess(a: Device, b: Device)
  {
    if ClassOrder(a.Class) != ClassOrder(b.Class) then ClassOrder(a.Class) < ClassOrder(b.Class)
    else Strs.Less(a.Name, b.Name)
  }

  lemma DeviceLessIsStrictWeakOrder()
    ensures Sorting.StrictWeakOrder(DeviceLess)
  {
    forall x, y ensures DeviceLess(x, y) ==> !DeviceLess(y, x) {
      Strs.LessIsStrictTotal(x.Name, y.Name, x.Name);
    }
    forall x, y, z ensures !DeviceLess(y, x) && !DeviceLess(z, y) ==> !DeviceLess(z, x) {
      Strs.LessIsStrictTotal(x.Name, y.Name, z.Name);
      Strs.LessIsStrictTotal(z.Name, x.Name, y.Name);
      Strs.LessIsStrictTotal(y.Name, z.Name, x.Name);
      Strs.LessIsStrictTotal(x.Name, z.Name, y.Name);
    }
  }

  /** `sortDevices`: like `sort.Slice`, the order of devices that compare
    * equal is not fixed. */
  method SortDevices(devices: array<Device>)
    modifies devices
    ensures multiset(devices[..]) == multiset(old(devices[..]))
    ensures Sorting.Sorted(devices[..], DeviceLess)
  {
    DeviceLessIsStrictWeakOrder();
    Sorting.SortSlice(devices, DeviceLess);
  }

  /** In a sorted list, backlights come before DDC displays, which come
    * before LEDs, and within a class names ascend. */
  lemma SortedDevices(s: seq<Device>, p: int, q: int)
    requires Sorting.Sorted(s, DeviceLess) && 0 <= p < q < |s|
    ensures ClassOrder(s[p].Class) <= ClassOrder(s[q].Class)
    ensures ClassOrder(s[p].Class) == ClassOrder(s[q].Class) ==> !Strs.Less(s[q].Name, s[p].Name)
  {
    assert !DeviceLess(s[q], s[p]);
  }

  // ---------------------------------------------------------------------
  // Change detection

  /** The devices by id; a later device with the same id replaces an
    * earlier one, as the map built by `stateChanged` does. */
  function ById(devs: seq<Device>): (m: map<string, Device>)
    ensures forall i :: 0 <= i < |devs| ==> devs[i].ID in m
    ensures forall id :: id in m ==> exists i :: 0 <= i < |devs| && devs[i].ID == id
  {
    if |devs| == 0 then map[]
    else
      var m := ById(devs[..|devs| - 1])[devs[|devs| - 1].ID := devs[|devs| - 1]];
      assert forall i :: 0 <= i < |devs| - 1 ==> devs[..|devs| - 1][i] == devs[i];
      m
  }

  /** A device of the new list that is absent from the old one, or whose
    * raw level or maximum differs from the old entry. */
  predicate DiffersFrom(oldById: map<string, Device>, d: Device)
  {
    d.ID !in oldById || oldById[d.ID].Current != d.Current || oldById[d.ID].Max != d.Max
  }

  predicate Changed(oldDevs: seq<Device>, newDevs: seq<Device>)
  {
    |oldDevs| != |newDevs| || exists i :: 0 <= i < |newDevs| && DiffersFrom(ById(oldDevs), newDevs[i])
  }

  /** The map `stateChanged` builds from the old devices. */
  method MapById(devs: seq<Device>) returns (m: map<string, Device>)
    ensures m == ById(devs)
  {
    m := map[];
    for i := 0 to |devs|
      invariant m == ById(devs[..i])
    {
      ByIdStep(devs, i);
      m := m[devs[i].ID := devs[i]];
    }
    assert devs[..|devs|] == devs;
  }

  /** The map of one more device of a prefix. */
  lemma ByIdStep(devs: seq<Device>, n: nat)
    requires n < |devs|
    ensures ById(devs[..n + 1]) == ById(devs[..n])[devs[n].ID := devs[n]]
  {
    var s := devs[..n + 1];
    assert s[..|s| - 1] == devs[..n] && s[|s| - 1] == devs[n];
  }

  /** `stateChanged`. */
  method StateChanged(oldDevs: seq<Device>, newDevs: seq<Device>) returns (changed: bool)
    ensures changed == Changed(oldDevs, newDevs)
  {
    if |oldDevs| != |newDevs| {
      return true;
    }
    var oldMap := MapById(oldDevs);
    for i := 0 to |newDevs|
      invariant forall j :: 0 <= j < i ==> !DiffersFrom(oldMap, newDevs[j])
    {
      if DiffersFrom(oldMap, newDevs[i]) {
        return true;
      }
    }
    return false;
  }

  /** With distinct ids each device is its own entry. */
  lemma {:induction false} ByIdDistinct(devs: seq<Device>, i: int)
    requires forall p, q :: 0 <= p < q < |devs| ==> devs[p].ID != devs[q].ID
    requires 0 <= i < |devs|
    ensures ById(devs)[devs[i].ID] == devs[i]
  {
    if i < |devs| - 1 {
      var init := devs[..|devs| - 1];
      ByIdDistinct(init, i);
    }
  }

  /** A list with distinct ids has not changed from itself, nor from a copy
    * whose percentages differ. */
  lemma OnlyPercentsChanged(oldDevs: seq<Device>, newDevs: seq<Device>)
    requires forall p, q :: 0 <= p < q < |oldDevs| ==> oldDevs[p].ID != oldDevs[q].ID
    requires |newDevs| == |oldDevs|
    requires forall i :: 0 <= i < |newDevs| ==> newDevs[i] == oldDevs[i].(CurrentPercent := newDevs[i].CurrentPercent)
    ensures !Changed(oldDevs, newDevs)
  {
    forall i | 0 <= i < |newDevs| ensures !DiffersFrom(ById(oldDevs), newDevs[i]) {
      ByIdDistinct(oldDevs, i);
    }
  }

  // ---------------------------------------------------------------------
  // The manager

  /** The first device with the id. */
  function FindDevice(devs: seq<Device>, id: string): (r: Option<nat>)
    ensures r.Some? ==> r.value < |devs| && devs[r.value].ID == id
                        && forall j :: 0 <= j < r.value ==> devs[j].ID != id
    ensures r.None? ==> forall j :: 0 <= j < |devs| ==> devs[j].ID != id
  {
    if |devs| == 0 then None
    else if devs[0].ID == id then Some(0)
    else
      var r := FindDevice(devs[1..], id);
      if r.None? then None else Some(r.value + 1)
  }

  class Manager {
    /** `state.Devices`. */
    var devices: seq<Device>
    /** How often subscribers were notified. */
    var notifications: nat

    constructor ()
      ensures devices == [] && notifications == 0
    {
      devices, notifications := [], 0;
    }

    /** `updateState`: the devices of each ready backend whose listing
      * succeeded (`None` otherwise), sysfs first, sorted; the state is
      * replaced and subscribers notified only when it changed. */
    method UpdateState(sysfs: Option<seq<Device>>, ddc: Option<seq<Device>>) returns (listed: seq<Device>)
      modifies this
      ensures multiset(listed) == multiset((if sysfs.Some? then sysfs.value else [])
                                           + (if ddc.Some? then ddc.value else []))
      ensures Sorting.Sorted(listed, DeviceLess)
      ensures Changed(old(devices), listed) ==>
                devices == listed && notifications == old(notifications) + 1
      ensures !Changed(old(devices), listed) ==>
                devices == old(devices) && notifications == old(notifications)
    {
      var all := (if sysfs.Some? then sysfs.value else []) + (if ddc.Some? then ddc.value else []);
      var arr := new Device[|all|](i requires 0 <= i < |all| => all[i]);
      assert arr[..] == all;
      SortDevices(arr);
      listed := arr[..];
      var changed := StateChanged(devices, listed);
      if !changed {
        return;
      }
      devices := listed;
      notifications := notifications + 1;
    }

    /** `SetBrightness` as far as the manager's state goes: a percentage
      * outside 0..100 or an unknown id is an error and changes nothing;
      * otherwise the first device with the id gets the percentage, and the
      * backend's outcome `backendErr` is reported. */
    method SetBrightness(id: string, percent: int, backendErr: Option<string>) returns (err: Option<string>)
      modifies this
      ensures notifications == old(notifications)
      ensures !(0 <= percent <= 100) ==>
                err == Some("percent out of range: " + Strs.IntToString(percent)) && devices == old(devices)
      ensures 0 <= percent <= 100 && FindDevice(old(devices), id).None? ==>
                err == Some("device not found: " + id) && devices == old(devices)
      ensures 0 <= percent <= 100 && FindDevice(old(devices), id).Some? ==>
                var i := FindDevice(old(devices), id).value;
                devices == old(devices)[i := old(devices)[i].(CurrentPercent := percent)]
                && err == (if backendErr.Some? then Some("failed to set brightness: " + backendErr.value) else None)
    {
      if percent < 0 || percent > 100 {
        return Some("percent out of range: " + Strs.IntToString(percent));
      }
      var found := FindDevice(devices, id);
      if found.None? {
        return Some("device not found: " + id);
      }
      var i := found.value;
      devices := devices[i := devices[i].(CurrentPercent := percent)];
      if backendErr.Some? {
        return Some("failed to set brightness: " + backendErr.value);
      }
      return None;
    }

    /** `IncrementBrightness`: the device's percentage moved by `step` and
      * held to 0..100, then set. */
    method IncrementBrightness(id: string, step: int, backendErr: Option<string>) returns (err: Option<string>)
      modifies this
      ensures notifications == old(notifications)
      ensures FindDevice(old(devices), id).None? ==>
                err == Some("device not found: " + id) && devices == old(devices)
      ensures FindDevice(old(devices), id).Some? ==>
                var i := FindDevice(old(devices), id).value;
                var target := UtilsMath.Clamp(old(devices)[i].CurrentPercent + step, 0, 100);
                devices == old(devices)[i := old(devices)[i].(CurrentPercent := target)]
                && err == (if backendErr.Some? then Some("failed to set brightness: " + backendErr.value) else None)
    {
      var found := FindDevice(devices, id);
      if found.None? {
        return Some("device not found: " + id);
      }
      var newPercent := devices[found.value].CurrentPercent + step;
      if newPercent > 100 {
        newPercent := 100;
      }
      if newPercent < 0 {
        newPercent := 0;
      }
      err := SetBrightness(id, newPercent, backendErr);
    }

    /** `DecrementBrightness` is an increment by `-step`. */
    method DecrementBrightness(id: string, step: int, backendErr: Option<string>) returns (err: Option<string>)
      modifies this
      ensures notifications == old(notifications)
      ensures FindDevice(old(devices), id).None? ==>
                err == Some("device not found: " + id) && devices == old(devices)
      ensures FindDevice(old(devices), id).Some? ==>
                var i := FindDevice(old(devices), id).value;
                var target := UtilsMath.Clamp(old(devices)[i].CurrentPercent - step, 0, 100);
                devices == old(devices)[i := old(devices)[i].(CurrentPercent := target)]
    {
      err := IncrementBrightness(id, -step, backendErr);
    }
  }
}
