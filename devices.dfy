/** The virtual hardware of a machine as the SDK reports it
    (VirtualMachine.Config.Hardware.Device), and the device-change entries the
    steps send back in a VirtualMachineConfigSpec. Only the fields the steps
    read or write are kept; each SDK class becomes one constructor of
    DeviceKind. */
module Devices {
  import opened Wrappers

  /** VirtualDeviceConnectInfo. */
  datatype Connectable = Connectable(connected: bool, startConnected: bool)

  /** Backing of a VirtualDisk: VirtualDiskFlatVer2BackingInfo or any other. */
  datatype DiskBacking =
    | FlatVer2(fileName: string, diskMode: string, thinProvisioned: Option<bool>,
               eagerlyScrub: Option<bool>, datastore: Option<string>)
    | OtherDiskBacking

  /** Backing of a VirtualCdrom: ISO image, host ATAPI device, or any other. */
  datatype CdromBacking =
    | IsoBacking(isoFileName: Option<string>, isoDatastore: Option<string>)
    | AtapiBacking(deviceName: string)
    | OtherCdromBacking

  /** Backing of a VirtualEthernetCard: a standard network (device name and
      Network reference), a distributed port group, or any other. */
  datatype NicBacking =
    | NetworkBacking(networkName: string, network: Option<string>)
    | DistributedPortBacking(portgroupKey: string, switchUuid: string)
    | OtherNicBacking

  /** The runtime class of a device. ScsiController stands for every subclass
      of VirtualSCSIController, EthernetCard for every VirtualEthernetCard. */
  datatype DeviceKind =
    | ScsiController(busNumber: int)
    | IdeController(busNumber: int)
    | Disk(capacityInBytes: int, diskBacking: DiskBacking)
    | EthernetCard(nicBacking: NicBacking, nicConnectable: Connectable, macAddress: Option<string>)
    | Cdrom(cdBacking: CdromBacking, cdConnectable: Connectable)
    | OtherDevice

  /** VirtualDevice: Key, DeviceInfo.Label, the nullable ControllerKey and
      UnitNumber, and the runtime class. */
  datatype Device = Device(key: int, deviceLabel: string, controllerKey: Option<int>,
                           unitNumber: Option<int>, kind: DeviceKind)

  /** VirtualSCSISharing of a new LSI Logic controller. */
  datatype ScsiSharing = NoSharing

  /** The device object placed in a VirtualDeviceConfigSpec. */
  datatype NewDevice =
    | NewScsiController(ctrlKey: int, ctrlBus: int)
    | NewLsiLogicController(lsiKey: int, lsiBus: int, sharedBus: ScsiSharing)
    | NewIdeController(ideKey: int, ideBus: int)
    | NewDisk(diskKey: int, diskController: int, diskUnit: int, capacityInKB: int,
              diskFileName: string, diskMode: string, diskDatastore: Option<string>)
    | NewCdrom(cdKey: int, cdController: int, cdUnit: int, cdIsoFile: Option<string>,
               cdConnectable: Option<Connectable>)
    | NewVmxnet3(nicKey: int, nicLabel: string, nicSummary: string, nicBacking: NicBacking)
    | EditedDevice(device: Device)

  datatype Operation = Add | Edit

  datatype FileOperation = Create

  /** VirtualDeviceConfigSpec. */
  datatype DeviceChange = DeviceChange(operation: Operation, fileOperation: Option<FileOperation>,
                                       newDevice: NewDevice)

  /** vSphere's "1 GB" in KB, used by every disk capacity conversion. */
  const KBPerGB: int := 1048576
}
