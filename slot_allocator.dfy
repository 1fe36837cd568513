/** GetFirstAvailableUnitAndController, which AddDisk runs over SCSI
    controllers and AddCDROM over IDE controllers: the first controller key,
    from a starting key upwards, whose next free unit number ("highest used
    unit + 1") is at most 1, together with the next free bus number for that
    controller class and whether a controller with that key exists. */
module SlotAllocator {
  import opened Wrappers
  import opened Devices

  /** Which controller class a scan looks at. */
  datatype ControllerClass = Scsi | Ide

  /** UnitController, the allocator's result record. */
  datatype UnitController = UnitController(unitNumber: int, controllerKey: int,
                                           controllerFound: bool, busNumber: int)

  /** `device is VirtualSCSIController` / `device is VirtualIDEController`. */
  predicate IsControllerOf(d: Device, cls: ControllerClass)
  {
    match cls
    case Scsi => d.kind.ScsiController?
    case Ide => d.kind.IdeController?
  }

  /** A device sits on controller `key` with a unit number. A null
      ControllerKey or UnitNumber never compares equal or greater in C#. */
  predicate UsesUnit(d: Device, key: int)
  {
    d.controllerKey == Some(key) && d.unitNumber.Some?
  }

  /** One iteration of the unit scan: `if (device.ControllerKey == key &&
      device.UnitNumber >= unit) unit = device.UnitNumber + 1`. */
  function UnitAfter(unit: int, d: Device, key: int): int
  {
    if UsesUnit(d, key) && d.unitNumber.value >= unit then d.unitNumber.value + 1 else unit
  }

  /** The unit number after scanning `ds` in order from `start`. */
  function NextUnit(ds: seq<Device>, key: int, start: int): int
  {
    if ds == [] then start else UnitAfter(NextUnit(ds[..|ds| - 1], key, start), ds[|ds| - 1], key)
  }

  /** One iteration of the bus scan over controllers of class `cls`. */
  function BusAfter(bus: int, d: Device, cls: ControllerClass): int
  {
    if IsControllerOf(d, cls) && d.kind.busNumber >= bus then d.kind.busNumber + 1 else bus
  }

  /** The bus number after scanning `ds` in order from 0. */
  function NextBus(ds: seq<Device>, cls: ControllerClass): int
  {
    if ds == [] then 0 else BusAfter(NextBus(ds[..|ds| - 1], cls), ds[|ds| - 1], cls)
  }

  /** `v` is max(start, 1 + the largest unit used on `key`): at least start,
      above every used unit, and either start or one above a used unit. */
  ghost predicate IsMaxUnitPlusOne(v: int, ds: seq<Device>, key: int, start: int)
  {
    && v >= start
    && (forall d :: d in ds && UsesUnit(d, key) ==> d.unitNumber.value < v)
    && (v == start || exists d :: d in ds && UsesUnit(d, key) && d.unitNumber.value + 1 == v)
  }

  /** `v` is 1 + the largest bus number of a `cls` controller, or 0. */
  ghost predicate IsMaxBusPlusOne(v: int, ds: seq<Device>, cls: ControllerClass)
  {
    && v >= 0
    && (forall d :: d in ds && IsControllerOf(d, cls) ==> d.kind.busNumber < v)
    && (v == 0 || exists d :: d in ds && IsControllerOf(d, cls) && d.kind.busNumber + 1 == v)
  }

  lemma {:induction false} NextUnitIsMax(ds: seq<Device>, key: int, start: int)
    ensures IsMaxUnitPlusOne(NextUnit(ds, key, start), ds, key, start)
  {
    if ds != [] {
      var init, last := ds[..|ds| - 1], ds[|ds| - 1];
      NextUnitIsMax(init, key, start);
      assert ds == init + [last];
      var v := NextUnit(init, key, start);
      if UsesUnit(last, key) && last.unitNumber.value >= v {
        assert last in ds;
      } else {
        forall d | d in ds && UsesUnit(d, key) ensures d.unitNumber.value < NextUnit(ds, key, start) {
          if d != last { assert d in init; }
        }
        if v != start {
          var w :| w in init && UsesUnit(w, key) && w.unitNumber.value + 1 == v;
          assert w in ds;
        }
      }
    }
  }

  lemma {:induction false} NextBusIsMax(ds: seq<Device>, cls: ControllerClass)
    ensures IsMaxBusPlusOne(NextBus(ds, cls), ds, cls)
  {
    if ds != [] {
      var init, last := ds[..|ds| - 1], ds[|ds| - 1];
      NextBusIsMax(init, cls);
      assert ds == init + [last];
      var v := NextBus(init, cls);
      if IsControllerOf(last, cls) && last.kind.busNumber >= v {
        assert last in ds;
      } else {
        forall d | d in ds && IsControllerOf(d, cls) ensures d.kind.busNumber < NextBus(ds, cls) {
          if d != last { assert d in init; }
        }
        if v != 0 {
          var w :| w in init && IsControllerOf(w, cls) && w.kind.busNumber + 1 == v;
          assert w in ds;
        }
      }
    }
  }

  /** The scan's characterisation fixes its value ... */
  lemma MaxUnitPlusOneUnique(v: int, w: int, ds: seq<Device>, es: seq<Device>, key: int, start: int)
    requires forall d :: d in ds <==> d in es
    requires IsMaxUnitPlusOne(v, ds, key, start) && IsMaxUnitPlusOne(w, es, key, start)
    ensures v == w
  {
  }

  /** ... so the unit found does not depend on the order of the devices. */
  lemma NextUnitOrderIndependent(ds: seq<Device>, es: seq<Device>, key: int, start: int)
    requires multiset(ds) == multiset(es)
    ensures NextUnit(ds, key, start) == NextUnit(es, key, start)
  {
    NextUnitIsMax(ds, key, start);
    NextUnitIsMax(es, key, start);
    forall d ensures d in ds <==> d in es {
      assert d in ds <==> d in multiset(ds);
      assert d in es <==> d in multiset(es);
    }
    MaxUnitPlusOneUnique(NextUnit(ds, key, start), NextUnit(es, key, start), ds, es, key, start);
  }

  /** A bound on the controller keys the devices refer to. */
  ghost function KeyBound(ds: seq<Device>): (b: int)
    ensures forall d :: d in ds && d.controllerKey.Some? ==> d.controllerKey.value <= b
  {
    if ds == [] then 0
    else
      var b := KeyBound(ds[1..]);
      assert forall d :: d in ds[1..] ==> d in ds[1..];
      if ds[0].controllerKey.Some? && ds[0].controllerKey.value > b then ds[0].controllerKey.value else b
  }

  /** Above every referenced key the scan leaves the unit number as it was. */
  lemma {:induction false} NextUnitBeyondKeys(ds: seq<Device>, key: int, start: int)
    requires forall d :: d in ds ==> d.controllerKey != Some(key)
    ensures NextUnit(ds, key, start) == start
  {
    if ds != [] {
      assert forall d :: d in ds[..|ds| - 1] ==> d in ds;
      NextUnitBeyondKeys(ds[..|ds| - 1], key, start);
    }
  }

  /** The recursion's measure: keys still to try up to the largest key in use,
      and one more call when a key beyond them starts above unit 1. */
  ghost function Remaining(ds: seq<Device>, key: int, unit: int): nat
  {
    if key <= KeyBound(ds) then KeyBound(ds) - key + 2
    else if unit > 1 then 1 else 0
  }

  /** The unit number a scan of `key` starts from: the caller's on the first
      key, 0 on every key the recursion moves on to. */
  function StartUnit(firstKey: int, firstUnit: int, key: int): int
  {
    if key == firstKey then firstUnit else 0
  }

  /** What GetFirstAvailableUnitAndController promises about its result `r`
      when called with `firstKey` and `firstUnit`: `r.controllerKey` is the
      first key from `firstKey` upwards whose scan ends at a unit number of at
      most 1, `r.unitNumber` is that scan's result, `r.busNumber` is one above
      the largest bus number of the class, and `r.controllerFound` says whether
      a controller of the class has the chosen key. */
  ghost predicate FirstAvailable(r: UnitController, cls: ControllerClass, firstKey: int, firstUnit: int,
                                 ds: seq<Device>)
  {
    && firstKey <= r.controllerKey
    && r.unitNumber == NextUnit(ds, r.controllerKey, StartUnit(firstKey, firstUnit, r.controllerKey))
    && r.unitNumber <= 1
    && (forall k :: firstKey <= k < r.controllerKey ==> NextUnit(ds, k, StartUnit(firstKey, firstUnit, k)) > 1)
    && r.busNumber == NextBus(ds, cls)
    && (r.controllerFound <==> exists d :: d in ds && IsControllerOf(d, cls) && d.key == r.controllerKey)
  }

  /** GetFirstAvailableUnitAndController (AddDisk.cs and AddCDROM.cs): one
      pass over the devices keeps the running unit number, bus number and
      "controller found" flag; when the unit number exceeds 1 the search
      starts again from unit 0 on the next controller key. */
  method GetFirstAvailableUnitAndController(cls: ControllerClass, controllerKey: int, unitNumber: int,
                                            devices: seq<Device>) returns (r: UnitController)
    ensures FirstAvailable(r, cls, controllerKey, unitNumber, devices)
    decreases Remaining(devices, controllerKey, unitNumber)
  {
    var controllerFound := false;
    var busNumber := 0;
    var unit := unitNumber;
    var i := 0;
    while i < |devices|
      invariant 0 <= i <= |devices|
      invariant unit == NextUnit(devices[..i], controllerKey, unitNumber)
      invariant busNumber == NextBus(devices[..i], cls)
      invariant controllerFound <==>
        exists j :: 0 <= j < i && IsControllerOf(devices[j], cls) && devices[j].key == controllerKey
    {
      var device := devices[i];
      assert devices[..i + 1][..i] == devices[..i];
      if device.controllerKey == Some(controllerKey) {
        if device.unitNumber.Some? && device.unitNumber.value >= unit {
          unit := device.unitNumber.value + 1;
        }
      }
      if IsControllerOf(device, cls) {
        if device.key == controllerKey {
          controllerFound := true;
        }
        if device.kind.busNumber >= busNumber {
          busNumber := device.kind.busNumber + 1;
        }
      }
      i := i + 1;
    }
    assert devices[..i] == devices;
    if unit > 1 {
      if controllerKey > KeyBound(devices) {
        NextUnitBeyondKeys(devices, controllerKey, unitNumber);
      }
      r := GetFirstAvailableUnitAndController(cls, controllerKey + 1, 0, devices);
      forall k | controllerKey <= k < r.controllerKey
        ensures NextUnit(devices, k, StartUnit(controllerKey, unitNumber, k)) > 1
      {
        if k > controllerKey {
          assert StartUnit(controllerKey + 1, 0, k) == 0;
        }
      }
      return;
    }
    r := UnitController(unit, controllerKey, controllerFound, busNumber);
    assert controllerFound ==> exists d :: d in devices && IsControllerOf(d, cls) && d.key == controllerKey;
  }

  /** The allocator's result is determined by its inputs. */
  lemma FirstAvailableUnique(r: UnitController, s: UnitController, cls: ControllerClass, firstKey: int,
                             firstUnit: int, ds: seq<Device>)
    requires FirstAvailable(r, cls, firstKey, firstUnit, ds)
    requires FirstAvailable(s, cls, firstKey, firstUnit, ds)
    ensures r == s
  {
  }

  /** The chosen unit is 0 or 1 when the search starts from a unit of at
      least 0, and no device on the chosen controller occupies it: every unit
      used there is below it. */
  lemma FirstAvailableSlotIsFree(r: UnitController, cls: ControllerClass, firstKey: int, firstUnit: int,
                                 ds: seq<Device>)
    requires FirstAvailable(r, cls, firstKey, firstUnit, ds)
    ensures firstUnit >= 0 ==> 0 <= r.unitNumber <= 1
    ensures forall d :: d in ds && UsesUnit(d, r.controllerKey) ==> d.unitNumber.value < r.unitNumber
  {
    NextUnitIsMax(ds, r.controllerKey, StartUnit(firstKey, firstUnit, r.controllerKey));
  }

  /** Controller `key` has a device at unit 1 or above. */
  ghost predicate HasUnitAboveZero(ds: seq<Device>, key: int)
  {
    exists d :: d in ds && UsesUnit(d, key) && d.unitNumber.value >= 1
  }

  /** Every controller key skipped on the way to the chosen one already has a
      device at unit 1 or above. */
  lemma SkippedControllersAreFull(r: UnitController, cls: ControllerClass, firstKey: int, ds: seq<Device>)
    requires FirstAvailable(r, cls, firstKey, 0, ds)
    ensures forall k :: firstKey <= k < r.controllerKey ==> HasUnitAboveZero(ds, k)
  {
    forall k | firstKey <= k < r.controllerKey
      ensures HasUnitAboveZero(ds, k)
    {
      NextUnitIsMax(ds, k, 0);
      assert StartUnit(firstKey, 0, k) == 0;
    }
  }

  /** The new bus number lies above every controller of the class, and is 0
      when there is none. */
  lemma NewBusIsAboveAll(r: UnitController, cls: ControllerClass, firstKey: int, firstUnit: int,
                         ds: seq<Device>)
    requires FirstAvailable(r, cls, firstKey, firstUnit, ds)
    ensures forall d :: d in ds && IsControllerOf(d, cls) ==> d.kind.busNumber < r.busNumber
    ensures (forall d :: d in ds ==> !IsControllerOf(d, cls)) ==> r.busNumber == 0
  {
    NextBusIsMax(ds, cls);
  }

  /** A device sits exactly at (controllerKey, unitNumber). */
  predicate At(d: Device, controllerKey: int, unitNumber: int)
  {
    d.controllerKey == Some(controllerKey) && d.unitNumber == Some(unitNumber)
  }

  /** The key of the last device at the slot, None when none is there. */
  function LastKeyAt(ds: seq<Device>, controllerKey: int, unitNumber: int): Option<int>
  {
    if ds == [] then None
    else if At(ds[|ds| - 1], controllerKey, unitNumber) then Some(ds[|ds| - 1].key)
    else LastKeyAt(ds[..|ds| - 1], controllerKey, unitNumber)
  }

  lemma {:induction false} LastKeyAtIsLast(ds: seq<Device>, controllerKey: int, unitNumber: int)
    ensures LastKeyAt(ds, controllerKey, unitNumber).None? <==>
      forall d :: d in ds ==> !At(d, controllerKey, unitNumber)
    ensures LastKeyAt(ds, controllerKey, unitNumber).Some? ==>
      exists i :: 0 <= i < |ds| && At(ds[i], controllerKey, unitNumber) &&
        ds[i].key == LastKeyAt(ds, controllerKey, unitNumber).value &&
        forall j :: i < j < |ds| ==> !At(ds[j], controllerKey, unitNumber)
  {
    if ds != [] {
      var init := ds[..|ds| - 1];
      assert ds == init + [ds[|ds| - 1]];
      if !At(ds[|ds| - 1], controllerKey, unitNumber) {
        LastKeyAtIsLast(init, controllerKey, unitNumber);
        if LastKeyAt(init, controllerKey, unitNumber).Some? {
          var i :| 0 <= i < |init| && At(init[i], controllerKey, unitNumber) &&
            init[i].key == LastKeyAt(init, controllerKey, unitNumber).value &&
            forall j :: i < j < |init| ==> !At(init[j], controllerKey, unitNumber);
          assert ds[i] == init[i];
          forall j | i < j < |ds| ensures !At(ds[j], controllerKey, unitNumber) {
            if j < |ds| - 1 { assert ds[j] == init[j]; }
          }
        } else {
          forall d | d in ds ensures !At(d, controllerKey, unitNumber) {
            if d != ds[|ds| - 1] { assert d in init; }
          }
        }
      } else {
        assert ds[|ds| - 1] in ds;
      }
    }
  }

  /** The `foreach` that reports a device key: every device at
      (controllerKey, unitNumber) overwrites the result, so the last wins. */
  method KeyAtSlot(devices: seq<Device>, controllerKey: int, unitNumber: int) returns (key: Option<int>)
    ensures key == LastKeyAt(devices, controllerKey, unitNumber)
  {
    key := None;
    var i := 0;
    while i < |devices|
      invariant 0 <= i <= |devices|
      invariant key == LastKeyAt(devices[..i], controllerKey, unitNumber)
    {
      assert devices[..i + 1][..i] == devices[..i];
      if devices[i].controllerKey == Some(controllerKey) && devices[i].unitNumber == Some(unitNumber) {
        key := Some(devices[i].key);
      }
      i := i + 1;
    }
    assert devices[..i] == devices;
  }
}
