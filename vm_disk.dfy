/** VmDisk: the summary record of one virtual disk, with its provisioning
    type derived from the flat-file backing's flags. */
module VmDiskInfo {
  import opened Wrappers
  import opened Devices

  /** The VmDisk record; every field is nullable. */
  datatype VmDisk = VmDisk(name: Option<string>, capacityInBytes: Option<int>, key: Option<int>,
                           diskType: Option<string>, diskMode: Option<string>, diskFile: Option<string>,
                           datastoreId: Option<string>, controller: Option<int>,
                           controllerLocation: Option<int>)

  const ThinProvisioned: string := "Thin provisioned"
  const ThickEager: string := "Thick provisioned, eagerly zeroed"
  const ThickLazy: string := "Thick provisioned, lazily zeroed"

  /** The provisioning type of a flat-file backing from its nullable
      ThinProvisioned and EagerlyScrub flags (`is true` treats null as
      false). */
  function ProvisioningType(thinProvisioned: Option<bool>, eagerlyScrub: Option<bool>): (t: string)
    ensures t == ThinProvisioned <==> thinProvisioned == Some(true)
    ensures t == ThickEager <==> thinProvisioned != Some(true) && eagerlyScrub == Some(true)
    ensures t == ThickLazy <==> thinProvisioned != Some(true) && eagerlyScrub != Some(true)
  {
    if thinProvisioned == Some(true) then ThinProvisioned
    else if eagerlyScrub == Some(true) then ThickEager
    else ThickLazy
  }

  /** The VmDisk(VirtualDisk) constructor. */
  function FromDisk(disk: Device): (r: VmDisk)
    requires disk.kind.Disk?
    ensures r.name == Some(disk.deviceLabel) && r.key == Some(disk.key)
    ensures r.capacityInBytes == Some(disk.kind.capacityInBytes)
    ensures r.controller == disk.controllerKey && r.controllerLocation == disk.unitNumber
    ensures r.diskType.Some? <==> disk.kind.diskBacking.FlatVer2?
    ensures r.diskMode.Some? <==> disk.kind.diskBacking.FlatVer2?
    ensures r.diskFile.Some? <==> disk.kind.diskBacking.FlatVer2?
    ensures r.datastoreId.Some? <==>
      disk.kind.diskBacking.FlatVer2? && disk.kind.diskBacking.datastore.Some?
    ensures disk.kind.diskBacking.FlatVer2? ==>
      var b := disk.kind.diskBacking;
      && r.diskMode == Some(b.diskMode) && r.diskFile == Some(b.fileName)
      && r.datastoreId == b.datastore
      && r.diskType == Some(ProvisioningType(b.thinProvisioned, b.eagerlyScrub))
  {
    var base := VmDisk(Some(disk.deviceLabel), Some(disk.kind.capacityInBytes), Some(disk.key),
                       None, None, None, None, disk.controllerKey, disk.unitNumber);
    match disk.kind.diskBacking
    case FlatVer2(fileName, diskMode, thin, eager, datastore) =>
      base.(diskMode := Some(diskMode), diskFile := Some(fileName),
            diskType := Some(ProvisioningType(thin, eager)),
            datastoreId := if datastore.Some? then Some(datastore.value) else None)
    case OtherDiskBacking => base
  }
}
