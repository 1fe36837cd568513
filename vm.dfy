/** VM: the summary of a virtual machine, with its hardware devices sorted
    into disks, network adapters and CD-ROM drives. */
module VmInfo {
  import opened Wrappers
  import opened Devices
  import opened VmDiskInfo
  import opened VmCdromInfo
  import opened VmNicInfo

  /** The VirtualMachine properties the constructor reads: Name, MoRef value,
      Config's GuestFullName, Template, Uuid, Version, and Hardware's
      MemoryMB, NumCPU and Device list. */
  datatype VirtualMachine = VirtualMachine(name: string, moRef: string, guestFullName: string,
                                           template: bool, uuid: string, version: string,
                                           memoryMB: int, numCpu: int, devices: seq<Device>)

  /** The VM record (GuestTools is not part of this model). */
  datatype VM = VM(name: Option<string>, id: Option<string>, os: Option<string>, template: Option<bool>,
                   uuid: Option<string>, version: Option<string>, memoryMB: Option<int>,
                   cpu: Option<int>, disks: seq<VmDisk>, nics: seq<VmNic>, cdroms: seq<VmCdrom>)

  /** The disks of a device list, in list order. */
  function DisksOf(devices: seq<Device>): seq<VmDisk>
  {
    if devices == [] then []
    else
      var last := devices[|devices| - 1];
      DisksOf(devices[..|devices| - 1]) + (if last.kind.Disk? then [FromDisk(last)] else [])
  }

  /** The network adapters of a device list, in list order. */
  function NicsOf(devices: seq<Device>): seq<VmNic>
  {
    if devices == [] then []
    else
      var last := devices[|devices| - 1];
      NicsOf(devices[..|devices| - 1]) + (if last.kind.EthernetCard? then [FromNic(last)] else [])
  }

  /** The CD-ROM drives of a device list, in list order. */
  function CdromsOf(devices: seq<Device>): seq<VmCdrom>
  {
    if devices == [] then []
    else
      var last := devices[|devices| - 1];
      CdromsOf(devices[..|devices| - 1]) + (if last.kind.Cdrom? then [FromCdrom(last)] else [])
  }

  /** `vm` is the summary of `machine`: identity and sizing fields copied,
      each device class in its own array, in device-list order. */
  ghost predicate Describes(vm: VM, machine: VirtualMachine)
  {
    && vm.name == Some(machine.name) && vm.id == Some(machine.moRef)
    && vm.os == Some(machine.guestFullName) && vm.template == Some(machine.template)
    && vm.uuid == Some(machine.uuid) && vm.version == Some(machine.version)
    && vm.memoryMB == Some(machine.memoryMB) && vm.cpu == Some(machine.numCpu)
    && vm.disks == DisksOf(machine.devices)
    && vm.nics == NicsOf(machine.devices)
    && vm.cdroms == CdromsOf(machine.devices)
  }

  /** The VM(VirtualMachine) constructor: the identity and sizing fields are
      copied, and one foreach sorts each device by its runtime class. */
  method FromMachine(machine: VirtualMachine) returns (vm: VM)
    ensures Describes(vm, machine)
  {
    var disks: seq<VmDisk> := [];
    var cdroms: seq<VmCdrom> := [];
    var nics: seq<VmNic> := [];
    var devices := machine.devices;
    for i := 0 to |devices|
      invariant disks == DisksOf(devices[..i])
      invariant nics == NicsOf(devices[..i])
      invariant cdroms == CdromsOf(devices[..i])
    {
      var device := devices[i];
      assert devices[..i + 1][..i] == devices[..i];
      match device.kind {
        case Disk(_, _) =>
          disks := disks + [FromDisk(device)];
        case EthernetCard(_, _, _) =>
          nics := nics + [FromNic(device)];
        case Cdrom(_, _) =>
          cdroms := cdroms + [FromCdrom(device)];
        case _ =>
      }
    }
    assert devices[..|devices|] == devices;
    vm := VM(Some(machine.name), Some(machine.moRef), Some(machine.guestFullName), Some(machine.template),
             Some(machine.uuid), Some(machine.version), Some(machine.memoryMB), Some(machine.numCpu),
             disks, nics, cdroms);
  }

  /** Sorting distributes over concatenation: each array keeps the device
      list's order. */
  lemma {:induction false} SortingKeepsOrder(a: seq<Device>, b: seq<Device>)
    ensures DisksOf(a + b) == DisksOf(a) + DisksOf(b)
    ensures NicsOf(a + b) == NicsOf(a) + NicsOf(b)
    ensures CdromsOf(a + b) == CdromsOf(a) + CdromsOf(b)
    decreases |b|
  {
    if b != [] {
      var n := |b|;
      assert (a + b)[..|a + b| - 1] == a + b[..n - 1];
      assert (a + b)[|a + b| - 1] == b[n - 1];
      SortingKeepsOrder(a, b[..n - 1]);
    } else {
      assert a + b == a;
    }
  }

  /** Each array holds exactly the images of the devices of its class. */
  lemma {:induction false} SortedByClass(devices: seq<Device>)
    ensures forall x :: x in DisksOf(devices) <==> exists d :: d in devices && d.kind.Disk? && x == FromDisk(d)
    ensures forall x :: x in NicsOf(devices) <==>
      exists d :: d in devices && d.kind.EthernetCard? && x == FromNic(d)
    ensures forall x :: x in CdromsOf(devices) <==>
      exists d :: d in devices && d.kind.Cdrom? && x == FromCdrom(d)
  {
    if devices != [] {
      var init := devices[..|devices| - 1];
      SortedByClass(init);
      assert devices == init + [devices[|devices| - 1]];
    }
  }

  /** The number of devices of none of the three classes (controllers and
      the like), which the constructor drops. */
  function DroppedCount(devices: seq<Device>): nat
  {
    if devices == [] then 0
    else
      var last := devices[|devices| - 1].kind;
      DroppedCount(devices[..|devices| - 1]) +
        (if last.Disk? || last.EthernetCard? || last.Cdrom? then 0 else 1)
  }

  /** Every device lands in at most one array: the three arrays and the
      dropped devices account for the whole list, once each. */
  lemma {:induction false} EachDeviceOnce(devices: seq<Device>)
    ensures |DisksOf(devices)| + |NicsOf(devices)| + |CdromsOf(devices)| + DroppedCount(devices) == |devices|
    ensures |DisksOf(devices)| + |NicsOf(devices)| + |CdromsOf(devices)| == |devices| <==>
      forall d :: d in devices ==> d.kind.Disk? || d.kind.EthernetCard? || d.kind.Cdrom?
  {
    if devices != [] {
      var init := devices[..|devices| - 1];
      EachDeviceOnce(init);
      DroppedCountZero(devices);
    } else {
      DroppedCountZero(devices);
    }
  }

  lemma {:induction false} DroppedCountZero(devices: seq<Device>)
    ensures DroppedCount(devices) == 0 <==>
      forall d :: d in devices ==> d.kind.Disk? || d.kind.EthernetCard? || d.kind.Cdrom?
  {
    if devices != [] {
      var init := devices[..|devices| - 1];
      DroppedCountZero(init);
      assert devices == init + [devices[|devices| - 1]];
    }
  }
}
