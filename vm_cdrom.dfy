/** VmCDROM: the summary record of one CD/DVD drive, classifying its backing
    as an ISO image or a host device. */
module VmCdromInfo {
  import opened Wrappers
  import opened Devices

  /** The VmCDROM record; every field is nullable. */
  datatype VmCdrom = VmCdrom(name: Option<string>, cdType: Option<string>,
                             fileOrDeviceName: Option<string>, datastoreId: Option<string>,
                             connected: Option<bool>, startConnected: Option<bool>)

  /** The VmCDROM(VirtualCdrom) constructor. */
  function FromCdrom(cd: Device): (r: VmCdrom)
    requires cd.kind.Cdrom?
    ensures r.name == Some(cd.deviceLabel)
    ensures r.cdType == Some("ISO") <==> cd.kind.cdBacking.IsoBacking?
    ensures r.cdType == Some("Host Device") <==> cd.kind.cdBacking.AtapiBacking?
    ensures r.cdType.None? <==> cd.kind.cdBacking.OtherCdromBacking?
    ensures cd.kind.cdBacking.IsoBacking? ==> r.fileOrDeviceName == cd.kind.cdBacking.isoFileName
    ensures cd.kind.cdBacking.AtapiBacking? ==> r.fileOrDeviceName == Some(cd.kind.cdBacking.deviceName)
    ensures cd.kind.cdBacking.OtherCdromBacking? ==> r.fileOrDeviceName.None?
    ensures r.datastoreId.Some? <==>
      cd.kind.cdBacking.IsoBacking? && cd.kind.cdBacking.isoDatastore.Some?
    ensures cd.kind.cdBacking.IsoBacking? ==> r.datastoreId == cd.kind.cdBacking.isoDatastore
    ensures r.connected == Some(cd.kind.cdConnectable.connected)
    ensures r.startConnected == Some(cd.kind.cdConnectable.startConnected)
  {
    var connectable := cd.kind.cdConnectable;
    var r := match cd.kind.cdBacking
      case IsoBacking(fileName, datastore) =>
        VmCdrom(Some(cd.deviceLabel), Some("ISO"), fileName,
                if datastore.Some? then Some(datastore.value) else None, None, None)
      case AtapiBacking(deviceName) =>
        VmCdrom(Some(cd.deviceLabel), Some("Host Device"), Some(deviceName), None, None, None)
      case OtherCdromBacking =>
        VmCdrom(Some(cd.deviceLabel), None, None, None, None, None);
    r.(connected := Some(connectable.connected), startConnected := Some(connectable.startConnected))
  }
}
