/** What the power and guest-command steps read from a VM: the guest tools
    and power state before acting, and the guest state at each poll. */
module Guest {
  /** The VM as first read: Guest.ToolsVersionStatus and
      Runtime.PowerState's ToString(). */
  datatype VmView = VmView(toolsVersionStatus: string, powerState: string)

  /** One poll of the guest: Guest.GuestState and Guest.ToolsRunningStatus. */
  datatype GuestView = GuestView(guestState: string, toolsRunningStatus: string)

  predicate ToolsNotInstalled(vm: VmView)
  {
    vm.toolsVersionStatus == "guestToolsNotInstalled"
  }

  predicate PoweredOn(vm: VmView)
  {
    vm.powerState == "poweredOn"
  }

  /** The guest OS is up: running, with its tools running. */
  predicate GuestUp(g: GuestView)
  {
    g.guestState == "running" && g.toolsRunningStatus == "guestToolsRunning"
  }

  /** The guest's tools have stopped (the reboot's shut-down sign). */
  predicate ToolsStopped(g: GuestView)
  {
    g.toolsRunningStatus == "guestToolsNotRunning"
  }
}
