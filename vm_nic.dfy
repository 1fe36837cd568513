/** VmNic: the summary record of one network adapter. */
module VmNicInfo {
  import opened Wrappers
  import opened Devices

  /** The VmNic record; every field is nullable. */
  datatype VmNic = VmNic(name: Option<string>, networkName: Option<string>, networkId: Option<string>,
                         connected: Option<bool>, startConnected: Option<bool>,
                         macAddress: Option<string>)

  /** The VmNic(VirtualEthernetCard) constructor: the network name and ID
      come only from a standard network backing, the ID only when that
      backing references a network. */
  function FromNic(nic: Device): (r: VmNic)
    requires nic.kind.EthernetCard?
    ensures r.name == Some(nic.deviceLabel) && r.macAddress == nic.kind.macAddress
    ensures r.networkName.Some? <==> nic.kind.nicBacking.NetworkBacking?
    ensures nic.kind.nicBacking.NetworkBacking? ==> r.networkName == Some(nic.kind.nicBacking.networkName)
    ensures r.networkId.Some? <==> nic.kind.nicBacking.NetworkBacking? && nic.kind.nicBacking.network.Some?
    ensures nic.kind.nicBacking.NetworkBacking? ==> r.networkId == nic.kind.nicBacking.network
    ensures r.connected == Some(nic.kind.nicConnectable.connected)
    ensures r.startConnected == Some(nic.kind.nicConnectable.startConnected)
  {
    var base := VmNic(Some(nic.deviceLabel), None, None, Some(nic.kind.nicConnectable.connected),
                      Some(nic.kind.nicConnectable.startConnected), nic.kind.macAddress);
    match nic.kind.nicBacking
    case NetworkBacking(deviceName, network) =>
      base.(networkName := Some(deviceName), networkId := if network.Some? then Some(network.value) else None)
    case _ => base
  }
}
