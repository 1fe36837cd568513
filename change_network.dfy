/** ChangeNetwork: moves one network adapter of a VM, picked by device key,
    to another network: a distributed port group when the network ID names
    one ("dvportgroup-..."), a standard network otherwise. */
module ChangeNetworkStep {
  import opened Wrappers
  import opened Devices
  import opened Tasks

  /** The adapter the step edits: an ethernet card whose key equals the
      nullable NIC Key (a null key matches nothing). */
  predicate IsNic(d: Device, nicKey: Option<int>)
  {
    nicKey == Some(d.key) && d.kind.EthernetCard?
  }

  /** The index of the first adapter with that key. */
  function FindNic(devices: seq<Device>, nicKey: Option<int>): (r: Option<nat>)
    ensures r.Some? ==>
      && r.value < |devices| && IsNic(devices[r.value], nicKey)
      && forall j :: 0 <= j < r.value ==> !IsNic(devices[j], nicKey)
    ensures r.None? <==> forall j :: 0 <= j < |devices| ==> !IsNic(devices[j], nicKey)
  {
    if devices == [] then None
    else if IsNic(devices[0], nicKey) then Some(0)
    else
      var rest := FindNic(devices[1..], nicKey);
      assert forall j :: 1 <= j < |devices| ==> devices[j] == devices[1..][j - 1];
      if rest.Some? then Some(rest.value + 1) else None
  }

  /** The edit entry for the adapter with its backing replaced. */
  function EditNic(nic: Device, backing: NicBacking): DeviceChange
    requires nic.kind.EthernetCard?
  {
    DeviceChange(Edit, None, EditedDevice(nic.(kind := nic.kind.(nicBacking := backing))))
  }

  /** The network ID names a distributed port group. */
  predicate IsPortgroupId(networkId: string)
  {
    StartsWith(networkId, "dvportgroup")
  }

  /** C#'s `"..." + NicKey` on a nullable int. */
  function KeyText(nicKey: Option<int>): string
  {
    if nicKey.Some? then IntToString(nicKey.value) else ""
  }

  /** ChangeNetwork.Run from the VM lookup on. `vm` is the VM's device list
      (None when not found); `portgroupSwitch` is the switch of the port
      group the ID names (None when the port group is not found),
      `switchUuid` that switch's UUID (None when the switch is not found),
      `networkName` the name of the standard network the ID names (None when
      not found). `change` is the device change sent with the reconfigure. */
  method Run(vmId: string, vm: Option<seq<Device>>, nicKey: Option<int>, networkId: Option<string>,
             portgroupSwitch: Option<string>, switchUuid: Option<string>, networkName: Option<string>,
             taskViews: seq<TaskState>)
    returns (result: StepResult<()>, change: Option<DeviceChange>)
    ensures vm.None? ==> result == Error("Failed to add Find VM with ID:" + vmId) && change.None?
    ensures vm.Some? && FindNic(vm.value, nicKey).None? ==>
      result == Error("Failed to add Find NIC with Key:" + KeyText(nicKey)) && change.None?
    ensures vm.Some? && FindNic(vm.value, nicKey).Some? ==>
      var nic := vm.value[FindNic(vm.value, nicKey).value];
      if networkId.None? then result == Error(NullReference) && change.None?
      else if IsPortgroupId(networkId.value) then
        if portgroupSwitch.None? then
          result == Error("Failed to add Find Portgroup with ID:" + networkId.value) && change.None?
        else if switchUuid.None? then
          result == Error("Failed to Find Switch for Portgroup with ID:" + networkId.value) && change.None?
        else change == Some(EditNic(nic, DistributedPortBacking(networkId.value, switchUuid.value)))
      else if networkName.None? then
        result == Error("Failed to add Find Network with ID:" + networkId.value) && change.None?
      else change == Some(EditNic(nic, NetworkBacking(networkName.value, Some(networkId.value))))
    ensures change.Some? ==>
      match Settled(taskViews)
      case None => result == StillPolling
      case Some(Failed(fault, message)) => result == Error("Failed to change network:" + fault + " - " + message)
      case Some(_) => result == Done(())
  {
    change := None;
    if vm.None? {
      return Error("Failed to add Find VM with ID:" + vmId), None;
    }
    var devices := vm.value;
    var nicFound := false;
    var i := 0;
    while i < |devices|
      invariant 0 <= i <= |devices|
      invariant !nicFound && change.None?
      invariant forall j :: 0 <= j < i ==> !IsNic(devices[j], nicKey)
    {
      var device := devices[i];
      if nicKey == Some(device.key) && device.kind.EthernetCard? {
        nicFound := true;
        assert FindNic(devices, nicKey) == Some(i);
        if networkId.None? {
          return Error(NullReference), None;
        }
        if StartsWith(networkId.value, "dvportgroup") {
          if portgroupSwitch.None? {
            return Error("Failed to add Find Portgroup with ID:" + networkId.value), None;
          }
          if switchUuid.None? {
            return Error("Failed to Find Switch for Portgroup with ID:" + networkId.value), None;
          }
          change := Some(EditNic(device, DistributedPortBacking(networkId.value, switchUuid.value)));
          break;
        } else {
          if networkName.None? {
            return Error("Failed to add Find Network with ID:" + networkId.value), None;
          }
          change := Some(EditNic(device, NetworkBacking(networkName.value, Some(networkId.value))));
          break;
        }
      }
      i := i + 1;
    }
    if !nicFound {
      return Error("Failed to add Find NIC with Key:" + KeyText(nicKey)), None;
    }
    var final := WaitForTask(taskViews);
    if final.None? {
      result := StillPolling;
    } else if final.value.Failed? {
      result := Error("Failed to change network:" + final.value.fault + " - " + final.value.localizedMessage);
    } else {
      result := Done(());
    }
  }

  /** The edit touches only the adapter's backing: key, label, slot,
      connection state and MAC address stay as they were, and the
      backing's kind follows the ID's prefix. */
  lemma EditKeepsAdapter(nic: Device, networkId: string, switchUuid: string, networkName: string)
    requires nic.kind.EthernetCard?
    ensures var backing := if IsPortgroupId(networkId) then DistributedPortBacking(networkId, switchUuid)
                           else NetworkBacking(networkName, Some(networkId));
      var edited := EditNic(nic, backing).newDevice.device;
      && EditNic(nic, backing).operation == Edit
      && edited.key == nic.key && edited.deviceLabel == nic.deviceLabel
      && edited.controllerKey == nic.controllerKey && edited.unitNumber == nic.unitNumber
      && edited.kind.EthernetCard?
      && edited.kind.nicConnectable == nic.kind.nicConnectable
      && edited.kind.macAddress == nic.kind.macAddress
      && (edited.kind.nicBacking.DistributedPortBacking? <==> IsPortgroupId(networkId))
      && (edited.kind.nicBacking.NetworkBacking? ==> edited.kind.nicBacking.network == Some(networkId))
  {
  }
}
