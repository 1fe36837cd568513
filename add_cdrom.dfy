/** The AddCDROM step: find a free IDE slot from controller key 200, build
    the reconfigure request (a new IDE controller when the chosen key has
    none, then a connected CD-ROM backed by the ISO file), wait for the task,
    and report a device key. As written, the key is looked up at controller
    200 (not the chosen one) in the device list read before the reconfigure;
    RunCorrected reports the key found at the chosen slot after a refresh, as
    AddDisk does. */
module AddCdromStep {
  import opened Wrappers
  import opened Devices
  import opened Tasks
  import opened SlotAllocator

  /** The key the IDE search starts from. */
  const FirstIdeKey: int := 200

  /** The add entry for the IDE controller the CD-ROM needs. */
  function ControllerChange(slot: UnitController): DeviceChange
  {
    DeviceChange(Add, None, NewIdeController(slot.controllerKey, slot.busNumber))
  }

  /** The add entry for the CD-ROM: default key 0, connected now and at
      power-on, backed by the ISO file. */
  function CdromChange(slot: UnitController, isoFile: Option<string>): DeviceChange
  {
    DeviceChange(Add, None, NewCdrom(0, slot.controllerKey, slot.unitNumber, isoFile,
                                     Some(Connectable(true, true))))
  }

  /** The device-change list: the controller first when it is missing. */
  function CdromChanges(slot: UnitController, isoFile: Option<string>): seq<DeviceChange>
  {
    if slot.controllerFound then [CdromChange(slot, isoFile)]
    else [ControllerChange(slot), CdromChange(slot, isoFile)]
  }

  /** AddCDROM.Run as written, from the VM lookup on. `vm` is the VM's device
      list (None when the VM is not found) and `taskViews` the successive
      reads of the reconfigure task. */
  method Run(vmId: string, vm: Option<seq<Device>>, isoFile: Option<string>, taskViews: seq<TaskState>)
    returns (result: StepResult<Option<int>>, slot: Option<UnitController>, changes: Option<seq<DeviceChange>>)
    ensures vm.None? ==>
      result == Error("Failed to add Find VM with ID:" + vmId) && slot.None? && changes.None?
    ensures vm.Some? ==> slot.Some? && FirstAvailable(slot.value, Ide, FirstIdeKey, 0, vm.value)
    ensures vm.Some? ==> changes == Some(CdromChanges(slot.value, isoFile))
    ensures vm.Some? ==>
      match Settled(taskViews)
      case None => result == StillPolling
      case Some(Failed(fault, message)) => result == Error("Failed to add CDROM:" + fault + " - " + message)
      case Some(_) => result == Done(LastKeyAt(vm.value, FirstIdeKey, slot.value.unitNumber))
  {
    slot, changes := None, None;
    if vm.None? {
      result := Error("Failed to add Find VM with ID:" + vmId);
      return;
    }
    var firstAvail := GetFirstAvailableUnitAndController(Ide, FirstIdeKey, 0, vm.value);
    slot := Some(firstAvail);
    var cdrom := CdromChange(firstAvail, isoFile);
    if !firstAvail.controllerFound {
      changes := Some([ControllerChange(firstAvail), cdrom]);
    } else {
      changes := Some([cdrom]);
    }
    var final := WaitForTask(taskViews);
    if final.None? {
      result := StillPolling;
    } else if final.value.Failed? {
      result := Error("Failed to add CDROM:" + final.value.fault + " - " + final.value.localizedMessage);
    } else {
      var cdKey := KeyAtSlot(vm.value, FirstIdeKey, firstAvail.unitNumber);
      result := Done(cdKey);
    }
  }

  /** AddCDROM.Run with the key looked up at the chosen slot in `refreshed`,
      the device list read after the reconfigure. */
  method RunCorrected(vmId: string, vm: Option<seq<Device>>, isoFile: Option<string>,
                      taskViews: seq<TaskState>, refreshed: seq<Device>)
    returns (result: StepResult<Option<int>>, slot: Option<UnitController>, changes: Option<seq<DeviceChange>>)
    ensures vm.None? ==>
      result == Error("Failed to add Find VM with ID:" + vmId) && slot.None? && changes.None?
    ensures vm.Some? ==> slot.Some? && FirstAvailable(slot.value, Ide, FirstIdeKey, 0, vm.value)
    ensures vm.Some? ==> changes == Some(CdromChanges(slot.value, isoFile))
    ensures vm.Some? ==>
      match Settled(taskViews)
      case None => result == StillPolling
      case Some(Failed(fault, message)) => result == Error("Failed to add CDROM:" + fault + " - " + message)
      case Some(_) => result == Done(LastKeyAt(refreshed, slot.value.controllerKey, slot.value.unitNumber))
  {
    slot, changes := None, None;
    if vm.None? {
      result := Error("Failed to add Find VM with ID:" + vmId);
      return;
    }
    var firstAvail := GetFirstAvailableUnitAndController(Ide, FirstIdeKey, 0, vm.value);
    slot := Some(firstAvail);
    changes := Some(CdromChanges(firstAvail, isoFile));
    var final := WaitForTask(taskViews);
    if final.None? {
      result := StillPolling;
    } else if final.value.Failed? {
      result := Error("Failed to add CDROM:" + final.value.fault + " - " + final.value.localizedMessage);
    } else {
      var cdKey := KeyAtSlot(refreshed, firstAvail.controllerKey, firstAvail.unitNumber);
      result := Done(cdKey);
    }
  }

  /** The CD-ROM goes on IDE key 200 or above, at unit 0 or 1, on a slot no
      existing device occupies; a new controller precedes it exactly when no
      IDE controller has the chosen key, and then on a bus above every IDE
      controller's. The CD-ROM is connected now and at power-on, with the ISO
      file as its backing. */
  lemma NewCdromSlot(devices: seq<Device>, slot: UnitController, isoFile: Option<string>)
    requires FirstAvailable(slot, Ide, FirstIdeKey, 0, devices)
    ensures FirstIdeKey <= slot.controllerKey && 0 <= slot.unitNumber <= 1
    ensures forall d :: d in devices ==> !At(d, slot.controllerKey, slot.unitNumber)
    ensures var changes := CdromChanges(slot, isoFile);
      && (|changes| == 2 <==> !slot.controllerFound)
      && changes[|changes| - 1].newDevice ==
           NewCdrom(0, slot.controllerKey, slot.unitNumber, isoFile, Some(Connectable(true, true)))
      && (!slot.controllerFound ==> changes[0].newDevice == NewIdeController(slot.controllerKey, slot.busNumber))
    ensures !slot.controllerFound ==>
      forall d :: d in devices && IsControllerOf(d, Ide) ==>
        d.key != slot.controllerKey && d.kind.busNumber < slot.busNumber
  {
    FirstAvailableSlotIsFree(slot, Ide, FirstIdeKey, 0, devices);
    NewBusIsAboveAll(slot, Ide, FirstIdeKey, 0, devices);
  }

  /** As written, whenever the CD-ROM goes on controller 200 the step reports
      no key: the lookup reads the list from before the reconfigure, where the
      chosen slot is free. */
  lemma AsWrittenMissesCdromOn200(devices: seq<Device>, slot: UnitController)
    requires FirstAvailable(slot, Ide, FirstIdeKey, 0, devices)
    requires slot.controllerKey == FirstIdeKey
    ensures LastKeyAt(devices, FirstIdeKey, slot.unitNumber) == None
  {
    FirstAvailableSlotIsFree(slot, Ide, FirstIdeKey, 0, devices);
    LastKeyAtIsLast(devices, FirstIdeKey, slot.unitNumber);
  }

  /** A VM whose only device is IDE controller 200 on bus 0: the CD-ROM goes
      to (200, 0) and the step as written answers "Done" with no key, even
      when the refreshed list shows the new CD-ROM there with key 3000; the
      corrected lookup reports 3000. */
  lemma AsWrittenReportsNoKey()
    ensures var devices := [Device(200, "IDE 0", Some(100), None, IdeController(0))];
      var slot := UnitController(0, 200, true, 1);
      var newCdrom := Device(3000, "CD/DVD drive 1", Some(200), Some(0),
                             Cdrom(IsoBacking(Some("[ds] os.iso"), None), Connectable(true, true)));
      && FirstAvailable(slot, Ide, FirstIdeKey, 0, devices)
      && LastKeyAt(devices, FirstIdeKey, slot.unitNumber) == None
      && LastKeyAt(devices + [newCdrom], slot.controllerKey, slot.unitNumber) == Some(3000)
  {
    var devices := [Device(200, "IDE 0", Some(100), None, IdeController(0))];
    var slot := UnitController(0, 200, true, 1);
    assert NextUnit(devices, 200, 0) == 0 by {
      assert devices[..0] == [];
    }
    assert NextBus(devices, Ide) == 1 by {
      assert devices[..0] == [];
    }
    assert devices[0] in devices;
    var newCdrom := Device(3000, "CD/DVD drive 1", Some(200), Some(0),
                           Cdrom(IsoBacking(Some("[ds] os.iso"), None), Connectable(true, true)));
    assert (devices + [newCdrom])[..1] == devices;
  }

  /** Corrected: when the refreshed list is the old one with the new CD-ROM
      added at the chosen slot, the step reports the new CD-ROM's key. */
  lemma CorrectedReportsNewCdromKey(devices: seq<Device>, slot: UnitController, newCdrom: Device)
    requires FirstAvailable(slot, Ide, FirstIdeKey, 0, devices)
    requires At(newCdrom, slot.controllerKey, slot.unitNumber)
    ensures LastKeyAt(devices + [newCdrom], slot.controllerKey, slot.unitNumber) == Some(newCdrom.key)
  {
    assert (devices + [newCdrom])[..|devices|] == devices;
  }
}
