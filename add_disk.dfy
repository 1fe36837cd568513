/** The AddDisk step: find a free SCSI slot from controller key 1000, build
    the reconfigure request (a new SCSI controller when the chosen key has
    none, then the new disk), wait for the task, and report the key of the
    device found at the chosen slot after the refresh. */
module AddDiskStep {
  import opened Wrappers
  import opened Devices
  import opened Tasks
  import opened SlotAllocator

  /** The key the SCSI search starts from. */
  const FirstScsiKey: int := 1000

  /** The add entry for the SCSI controller the disk needs. */
  function ControllerChange(slot: UnitController): DeviceChange
  {
    DeviceChange(Add, None, NewScsiController(slot.controllerKey, slot.busNumber))
  }

  /** The add entry for the disk: key -1, flat backing with an empty file name
      in persistent mode, capacity given in GB and sent in KB. */
  function DiskChange(slot: UnitController, diskSizeGB: int): DeviceChange
  {
    DeviceChange(Add, Some(Create),
                 NewDisk(-1, slot.controllerKey, slot.unitNumber, diskSizeGB * KBPerGB, "", "persistent", None))
  }

  /** AddDisk.Run from the VM lookup on. `vm` is the VM's device list (None
      when the VM is not found), `taskViews` the successive reads of the
      reconfigure task and `refreshed` the device list read after it. */
  method Run(vmId: string, vm: Option<seq<Device>>, diskSizeGB: Option<int>, taskViews: seq<TaskState>,
             refreshed: seq<Device>)
    returns (result: StepResult<Option<int>>, slot: Option<UnitController>, changes: Option<seq<DeviceChange>>)
    ensures vm.None? ==>
      result == Error("Failed to add Find VM with ID:" + vmId) && slot.None? && changes.None?
    ensures vm.Some? ==> slot.Some? && FirstAvailable(slot.value, Scsi, FirstScsiKey, 0, vm.value)
    ensures vm.Some? && diskSizeGB.None? ==> result == Error(NullableHasNoValue) && changes.None?
    ensures vm.Some? && diskSizeGB.Some? ==>
      changes == Some(if slot.value.controllerFound then [DiskChange(slot.value, diskSizeGB.value)]
                      else [ControllerChange(slot.value), DiskChange(slot.value, diskSizeGB.value)])
    ensures vm.Some? && diskSizeGB.Some? ==>
      match Settled(taskViews)
      case None => result == StillPolling
      case Some(Failed(fault, message)) => result == Error("Failed to add Disk:" + fault + " - " + message)
      case Some(_) => result == Done(LastKeyAt(refreshed, slot.value.controllerKey, slot.value.unitNumber))
  {
    slot, changes := None, None;
    if vm.None? {
      result := Error("Failed to add Find VM with ID:" + vmId);
      return;
    }
    var firstAvail := GetFirstAvailableUnitAndController(Scsi, FirstScsiKey, 0, vm.value);
    slot := Some(firstAvail);
    if diskSizeGB.None? {
      result := Error(NullableHasNoValue);
      return;
    }
    var disk := DiskChange(firstAvail, diskSizeGB.value);
    if !firstAvail.controllerFound {
      changes := Some([ControllerChange(firstAvail), disk]);
    } else {
      changes := Some([disk]);
    }
    var final := WaitForTask(taskViews);
    if final.None? {
      result := StillPolling;
    } else if final.value.Failed? {
      result := Error("Failed to add Disk:" + final.value.fault + " - " + final.value.localizedMessage);
    } else {
      var diskKey := KeyAtSlot(refreshed, firstAvail.controllerKey, firstAvail.unitNumber);
      result := Done(diskKey);
    }
  }

  /** The disk AddDisk requests goes on SCSI key 1000 or above, at unit 0 or
      1, on a slot no existing device occupies; every key passed over has a
      device at unit 1 or above; a controller is added exactly when no SCSI
      controller has the chosen key, and then on a bus above every SCSI
      controller's. */
  lemma NewDiskSlot(devices: seq<Device>, slot: UnitController)
    requires FirstAvailable(slot, Scsi, FirstScsiKey, 0, devices)
    ensures FirstScsiKey <= slot.controllerKey && 0 <= slot.unitNumber <= 1
    ensures forall d :: d in devices ==> !At(d, slot.controllerKey, slot.unitNumber)
    ensures forall k :: FirstScsiKey <= k < slot.controllerKey ==> HasUnitAboveZero(devices, k)
    ensures !slot.controllerFound ==>
      forall d :: d in devices && IsControllerOf(d, Scsi) ==>
        d.key != slot.controllerKey && d.kind.busNumber < slot.busNumber
  {
    FirstAvailableSlotIsFree(slot, Scsi, FirstScsiKey, 0, devices);
    SkippedControllersAreFull(slot, Scsi, FirstScsiKey, devices);
    NewBusIsAboveAll(slot, Scsi, FirstScsiKey, 0, devices);
  }

  /** When the refreshed list is the old one with the new disk added at the
      chosen slot, the step reports the new disk's key. */
  lemma ReportsNewDiskKey(devices: seq<Device>, slot: UnitController, newDisk: Device)
    requires FirstAvailable(slot, Scsi, FirstScsiKey, 0, devices)
    requires At(newDisk, slot.controllerKey, slot.unitNumber)
    ensures LastKeyAt(devices + [newDisk], slot.controllerKey, slot.unitNumber) == Some(newDisk.key)
  {
    assert (devices + [newDisk])[..|devices|] == devices;
  }
}
