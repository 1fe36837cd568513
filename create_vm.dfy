/** CreateVM: the VirtualMachineConfigSpec of a new machine (name, memory,
    CPUs, guest OS, datastore path and an ordered device list: LSI Logic
    controller and disk, CD-ROM, network adapter), the creation task, and
    the summary of the created machine. */
module CreateVmStep {
  import opened Wrappers
  import opened Devices
  import opened Tasks
  import opened VmInfo

  const TwoTo31: int := 0x8000_0000
  const TwoTo32: int := 0x1_0000_0000

  /** C#'s unchecked 32-bit int arithmetic: the result reduced into
      [-2^31, 2^31). */
  function WrapInt32(x: int): (r: int)
    ensures -TwoTo31 <= r < TwoTo31
    ensures (x - r) % TwoTo32 == 0
  {
    (x + TwoTo31) % TwoTo32 - TwoTo31
  }

  /** `Memory * 1024` on a nullable int: null stays null, the product wraps. */
  function MemoryMB(memoryGB: Option<int>): (r: Option<int>)
    ensures r.None? <==> memoryGB.None?
    ensures memoryGB.Some? && -2097152 <= memoryGB.value < 2097152 ==> r == Some(memoryGB.value * 1024)
  {
    if memoryGB.Some? then
      Some(WrapInt32(memoryGB.value * 1024))
    else None
  }

  /** 2097152 GB is past the 32-bit range once counted in MB. */
  lemma MemoryWrapsAt2PB()
    ensures MemoryMB(Some(2097152)) == Some(-TwoTo31)
  {
  }

  /** The Datastore the VM is placed on: its name and MoRef value. */
  datatype Datastore = Datastore(name: string, moRef: string)

  /** The VirtualMachineConfigSpec fields the step sets. */
  datatype ConfigSpec = ConfigSpec(name: Option<string>, memoryMB: Option<int>, numCpus: Option<int>,
                                   guestId: string, vmPathName: string, deviceChange: seq<DeviceChange>)

  const NewScsiKey: int := 1000
  const NewIdeKey: int := 200
  const NicLabel: string := "Network Adapter 1"

  /** The LSI Logic controller and the disk on it, for a given size. */
  function DiskChanges(diskSizeGB: int, datastore: Datastore): seq<DeviceChange>
  {
    [ DeviceChange(Add, None, NewLsiLogicController(NewScsiKey, 0, NoSharing)),
      DeviceChange(Add, Some(Create), NewDisk(-1, NewScsiKey, 0, diskSizeGB * KBPerGB, "", "persistent",
                                              Some(datastore.moRef))) ]
  }

  /** The CD-ROM with the ISO file mounted. */
  function CdromChange(isoFile: string): DeviceChange
  {
    DeviceChange(Add, None, NewCdrom(1, NewIdeKey, 0, Some(isoFile), None))
  }

  /** The VMXNET3 adapter on the network of that name. */
  function NicChange(networkName: string): DeviceChange
  {
    DeviceChange(Add, None, NewVmxnet3(2, NicLabel, networkName, NetworkBacking(networkName, None)))
  }

  /** The order a device class takes in the list. */
  function Rank(d: NewDevice): int
  {
    match d
    case NewLsiLogicController(_, _, _) => 0
    case NewDisk(_, _, _, _, _, _, _) => 1
    case NewCdrom(_, _, _, _, _) => 2
    case NewVmxnet3(_, _, _, _) => 3
    case _ => 4
  }

  /** Builds the config spec field by field, appending each optional device
      in turn. `networkName` is the name of the network Network ID names
      (read only when Network ID is set). */
  method BuildConfigSpec(vmName: Option<string>, memoryGB: Option<int>, cpu: Option<int>, osType: string,
                         datastore: Datastore, diskSizeGB: Option<int>, isoFile: Option<string>,
                         networkId: Option<string>, networkName: string)
    returns (spec: ConfigSpec)
    ensures spec.name == vmName && spec.numCpus == cpu && spec.guestId == osType
    ensures spec.memoryMB == MemoryMB(memoryGB)
    ensures spec.vmPathName == "[" + datastore.name + "]"
    ensures spec.deviceChange == DeviceList(datastore, diskSizeGB, isoFile, networkId, networkName)
  {
    var configSpecs: seq<DeviceChange> := [];
    if diskSizeGB.Some? {
      var scsiControllerSpec := DeviceChange(Add, None, NewLsiLogicController(NewScsiKey, 0, NoSharing));
      configSpecs := configSpecs + [scsiControllerSpec];
      var diskSpec := DeviceChange(Add, Some(Create),
        NewDisk(-1, NewScsiKey, 0, diskSizeGB.value * KBPerGB, "", "persistent", Some(datastore.moRef)));
      configSpecs := configSpecs + [diskSpec];
    }
    if isoFile.Some? && isoFile.value != "" {
      configSpecs := configSpecs + [CdromChange(isoFile.value)];
    }
    if networkId.Some? {
      configSpecs := configSpecs + [NicChange(networkName)];
    }
    spec := ConfigSpec(vmName, MemoryMB(memoryGB), cpu, osType, "[" + datastore.name + "]", configSpecs);
  }

  /** Whether a device list holds a device of a given class. */
  predicate HasRank(changes: seq<DeviceChange>, rank: int)
  {
    exists i :: 0 <= i < |changes| && Rank(changes[i].newDevice) == rank
  }

  /** The device list the step builds: controller and disk when a disk size
      is given, then the CD-ROM when the ISO file is non-empty, then the NIC
      when a network ID is given. */
  function DeviceList(datastore: Datastore, diskSizeGB: Option<int>, isoFile: Option<string>,
                      networkId: Option<string>, networkName: string): seq<DeviceChange>
  {
    (if diskSizeGB.Some? then DiskChanges(diskSizeGB.value, datastore) else []) +
    (if !IsNullOrEmpty(isoFile) then [CdromChange(isoFile.value)] else []) +
    (if networkId.Some? then [NicChange(networkName)] else [])
  }

  /** The class of each entry of the device list, by position. */
  lemma DeviceRanks(datastore: Datastore, diskSizeGB: Option<int>, isoFile: Option<string>,
                    networkId: Option<string>, networkName: string)
    ensures var changes := DeviceList(datastore, diskSizeGB, isoFile, networkId, networkName);
      var nDisk := if diskSizeGB.Some? then 2 else 0;
      var nCd := if !IsNullOrEmpty(isoFile) then 1 else 0;
      && |changes| == nDisk + nCd + (if networkId.Some? then 1 else 0)
      && forall i :: 0 <= i < |changes| ==>
           Rank(changes[i].newDevice) == if i < nDisk then i else if i < nDisk + nCd then 2 else 3
  {
    var disk := if diskSizeGB.Some? then DiskChanges(diskSizeGB.value, datastore) else [];
    var cd := if !IsNullOrEmpty(isoFile) then [CdromChange(isoFile.value)] else [];
    var nic := if networkId.Some? then [NicChange(networkName)] else [];
    var changes := disk + cd + nic;
    assert changes == DeviceList(datastore, diskSizeGB, isoFile, networkId, networkName);
    forall i | 0 <= i < |changes|
      ensures Rank(changes[i].newDevice) ==
        if i < |disk| then i else if i < |disk| + |cd| then 2 else 3
    {
      if i < |disk| {
        assert changes[i] == disk[i];
      } else if i < |disk| + |cd| {
        assert changes[i] == cd[i - |disk|];
      } else {
        assert changes[i] == nic[i - |disk| - |cd|];
      }
    }
  }

  /** The device list holds controller, disk, CD-ROM and NIC in that order,
      each at most once; the controller and disk exactly when a disk size
      is given, the CD-ROM exactly when the ISO file is non-empty, the NIC
      exactly when a network ID is given. The disk sits on the controller's
      key 1000 at unit 0 and its capacity is the size in GB times 1048576
      KB. */
  lemma DeviceListShape(datastore: Datastore, diskSizeGB: Option<int>, isoFile: Option<string>,
                        networkId: Option<string>, networkName: string)
    ensures var changes := DeviceList(datastore, diskSizeGB, isoFile, networkId, networkName);
      && (forall i, j :: 0 <= i < j < |changes| ==> Rank(changes[i].newDevice) < Rank(changes[j].newDevice))
      && (HasRank(changes, 0) <==> diskSizeGB.Some?)
      && (HasRank(changes, 1) <==> diskSizeGB.Some?)
      && (HasRank(changes, 2) <==> !IsNullOrEmpty(isoFile))
      && (HasRank(changes, 3) <==> networkId.Some?)
      && (diskSizeGB.Some? ==>
            changes[1].newDevice.diskController == changes[0].newDevice.lsiKey == NewScsiKey
            && changes[1].newDevice.diskUnit == 0
            && changes[1].newDevice.capacityInKB == diskSizeGB.value * 1048576
            && changes[1].fileOperation == Some(Create))
  {
    DeviceRanks(datastore, diskSizeGB, isoFile, networkId, networkName);
    var changes := DeviceList(datastore, diskSizeGB, isoFile, networkId, networkName);
    var nDisk := if diskSizeGB.Some? then 2 else 0;
    var nCd := if !IsNullOrEmpty(isoFile) then 1 else 0;
    if diskSizeGB.Some? {
      assert Rank(changes[0].newDevice) == 0 && Rank(changes[1].newDevice) == 1;
    }
    if !IsNullOrEmpty(isoFile) {
      assert Rank(changes[nDisk].newDevice) == 2;
    }
    if networkId.Some? {
      assert Rank(changes[nDisk + nCd].newDevice) == 3;
    }
  }

  const CreateFailedPrefix: string := "Failed to create virtual machine with error message:"

  /** The message of the exception `List<T>`'s indexer throws for an index
      past the end. */
  const IndexOutOfRange: string :=
    "Index was out of range. Must be non-negative and less than the size of the collection. (Parameter 'index')"

  /** Where CreateVM_Task is asked to place the machine: the folder it is
      called on, the resource pool and the host (their MoRef values). */
  datatype Placement = Placement(folder: string, resourcePool: string, host: string)

  /** CreateVM.Run from the host lookup on. `hosts` is what the HostSystem
      search returns (None when null), `folder`, `resourcePool` and
      `datastore` the looked-up objects (None when null), `network` the name
      of the looked-up network (None when null), `taskViews` the reads of
      the creation task and `created` the machine the finished task names.
      `spec` and `placement` are what CreateVM_Task is called with. */
  method Run(vmName: Option<string>, memoryGB: Option<int>, cpu: Option<int>, osType: string,
             hosts: Option<seq<string>>, folder: Option<string>, resourcePool: Option<string>,
             datastore: Option<Datastore>, diskSizeGB: Option<int>, isoFile: Option<string>,
             networkId: Option<string>, network: Option<string>,
             taskViews: seq<TaskState>, created: VirtualMachine)
    returns (result: StepResult<VM>, spec: Option<ConfigSpec>, placement: Option<Placement>)
    ensures hosts.None? ==> result == Error(NullReference) && spec.None?
    ensures hosts == Some([]) ==> result == Error(IndexOutOfRange) && spec.None?
    ensures hosts.Some? && hosts.value != [] && datastore.None? ==> result == Error(NullReference) && spec.None?
    ensures hosts.Some? && hosts.value != [] && datastore.Some? && networkId.Some? && network.None? ==>
      result == Error(NullReference) && spec.None?
    ensures hosts.Some? && hosts.value != [] && datastore.Some? && (networkId.Some? ==> network.Some?) &&
            (folder.None? || resourcePool.None?) ==>
      result == Error(NullReference) && spec.None?
    ensures spec.Some? <==> placement.Some?
    ensures spec.Some? <==>
      hosts.Some? && hosts.value != [] && datastore.Some? && (networkId.Some? ==> network.Some?) &&
      folder.Some? && resourcePool.Some?
    ensures spec.Some? ==>
      && placement.value == Placement(folder.value, resourcePool.value, hosts.value[0])
      && spec.value.name == vmName && spec.value.guestId == osType
      && spec.value.memoryMB == MemoryMB(memoryGB) && spec.value.numCpus == cpu
      && spec.value.vmPathName == "[" + datastore.value.name + "]"
      && spec.value.deviceChange == DeviceList(datastore.value, diskSizeGB, isoFile, networkId, OrEmpty(network))
      && match Settled(taskViews)
         case None => result == StillPolling
         case Some(Success) => result.Done? && Describes(result.data, created)
         case Some(Failed(_, message)) => result == Error(CreateFailedPrefix + message)
         case Some(_) => false
  {
    spec, placement := None, None;
    if hosts.None? {
      result := Error(NullReference);
      return;
    }
    if hosts.value == [] {
      result := Error(IndexOutOfRange);
      return;
    }
    var host := hosts.value[0];
    if datastore.None? || (networkId.Some? && network.None?) {
      result := Error(NullReference);
      return;
    }
    var s := BuildConfigSpec(vmName, memoryGB, cpu, osType, datastore.value, diskSizeGB, isoFile,
                             networkId, OrEmpty(network));
    if folder.None? || resourcePool.None? {
      result := Error(NullReference);
      return;
    }
    spec, placement := Some(s), Some(Placement(folder.value, resourcePool.value, host));
    var final := WaitForTask(taskViews);
    if final.None? {
      result := StillPolling;
    } else if final.value == Success {
      var vm := FromMachine(created);
      result := Done(vm);
    } else {
      result := Error(CreateFailedPrefix + final.value.localizedMessage);
    }
  }
}
