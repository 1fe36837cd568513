# Zitac.VmWare workflow steps, modelled in Dafny

Zitac.VmWare is a set of workflow steps that drive a vSphere server through
the VMware SDK. Each step takes inputs from the workflow host, looks up
managed objects, possibly starts a server task and polls it, and returns a
named outcome ("Done", "No Results", "Timeout", "Already Running",
"Not Running", "Error") with data.

This project models those steps as Dafny functions and methods. The SDK
becomes inputs:
- a looked-up object is an `Option` (None is the null the SDK returns);
- the device list of a machine is a `seq<Device>`;
- a folder tree is a recursive datatype;
- every polling loop reads a sequence of successive observations.

Modules:
- `Wrappers`: Option, the step outcome `StepResult`, outcome lists, C#'s
  null-related exception messages, `byte`.
- `Tasks`: the "wait while running or queued" loop every task-starting step
  uses.
- `Devices`: virtual devices as the SDK reports them, and the
  device-change entries a reconfigure sends.
- `SlotAllocator`: `GetFirstAvailableUnitAndController`, shared by AddDisk
  and AddCDROM, and the key lookup after the reconfigure.
- `AddDiskStep`, `AddCdromStep`, `ChangeNetworkStep`, `CreateVmStep`: the
  reconfigure and create steps.
- `FolderStructure`, `FolderById`: the recursive folder walks, and the
  ordinal sort by path.
- `Snapshots`: the snapshot tree conversion.
- `DatastoreClusters`: the storage pod filter.
- `VmInfo`, `VmDiskInfo`, `VmCdromInfo`, `VmNicInfo`: the VM description
  classes built from a machine.
- `Guest`: the guest state predicates the power steps test.
- `PowerOnStep`, `PowerOffStep`, `RebootStep`, `RunScriptStep`: the steps
  that poll the guest. A polling loop is a method proved equal to a
  recursive specification function. Lemmas characterise when each loop
  ends in Done and when in Timeout.
- `Base64`, `Utf16`: the two encodings the PowerShell step chains to build
  `-EncodedCommand`. Each has a strict decoder, and round trips are proved
  in both directions.

Each loop's timeout counter starts at 5. It grows by 5 per guest poll
(3 for power-off). The loop gives up when "specify timeout" is set and the
counter has reached the maximum. When the given observations run out while
the source would keep polling, the model returns `StillPolling`. That is
not an outcome of the source.

## Model

| member | source | states |
|---|---|---|
| Tasks.Settled | Zitac.VmWare/Steps/AddDisk.cs:147-153 | the loop stops on a state that is neither running nor queued |
| Tasks.SettledIsFirst | Zitac.VmWare/Steps/AddDisk.cs:147-153 | the task settles iff some read is not in progress, and then on the first such read |
| Tasks.WaitForTask | Zitac.VmWare/Steps/AddDisk.cs:147-153 | the polling loop returns exactly the first settled read |
| SlotAllocator.NextUnitIsMax | Zitac.VmWare/Steps/AddDisk.cs:199-208 | the scan yields one more than the highest unit on the controller at or above the start unit, or the start unit when there is none |
| SlotAllocator.NextBusIsMax | Zitac.VmWare/Steps/AddDisk.cs:210-220 | the scan yields one more than the highest bus number of a controller of the class, or 0 |
| SlotAllocator.MaxUnitPlusOneUnique | Zitac.VmWare/Steps/AddDisk.cs:199-208 | the "highest unit plus one" depends only on which devices are present |
| SlotAllocator.NextUnitOrderIndependent | Zitac.VmWare/Steps/AddDisk.cs:199-208 | reordering the device array does not change the unit found |
| SlotAllocator.NextUnitBeyondKeys | Zitac.VmWare/Steps/AddDisk.cs:199-208 | a controller key no device uses leaves the start unit unchanged, which is why the recursion ends |
| SlotAllocator.GetFirstAvailableUnitAndController | Zitac.VmWare/Steps/AddDisk.cs:195-238 | the returned slot is the first controller key, from the given one upward, with a unit at most 1 free above every used unit, with the controller-found flag and the next bus number |
| SlotAllocator.FirstAvailableUnique | Zitac.VmWare/Steps/AddDisk.cs:195-238 | the allocation is a function of its inputs |
| SlotAllocator.FirstAvailableSlotIsFree | Zitac.VmWare/Steps/AddDisk.cs:221-230 | the slot's unit is 0 or 1 and lies above every unit used on that controller |
| SlotAllocator.SkippedControllersAreFull | Zitac.VmWare/Steps/AddDisk.cs:226-230 | every controller key skipped has a device at unit 1 or above |
| SlotAllocator.NewBusIsAboveAll | Zitac.VmWare/Steps/AddDisk.cs:210-220 | the bus number is above every existing controller's of the class, and 0 when there is none |
| SlotAllocator.LastKeyAtIsLast | Zitac.VmWare/Steps/AddDisk.cs:165-171 | the reported key is that of the last device at the slot, and null iff no device is there |
| SlotAllocator.KeyAtSlot | Zitac.VmWare/Steps/AddDisk.cs:165-171 | the foreach loop reports the last device key at the slot |
| AddDiskStep.Run | Zitac.VmWare/Steps/AddDisk.cs:83-171 | null machine is an error; the slot is the first available SCSI slot from key 1000; a null size throws; a controller entry is added only when none exists; a failed task is an error; otherwise the key at the slot after the refresh |
| AddDiskStep.NewDiskSlot | Zitac.VmWare/Steps/AddDisk.cs:92-141 | the new disk goes to a free unit 0 or 1 on a SCSI key at or above 1000; every skipped key is full; a new controller gets a fresh key and a bus above all others |
| AddDiskStep.ReportsNewDiskKey | Zitac.VmWare/Steps/AddDisk.cs:163-171 | once the new disk appears at its slot, the step reports the new disk's key |
| AddCdromStep.Run | Zitac.VmWare/Steps/AddCDROM.cs:84-166 | as written: the slot is the first free IDE slot from key 200; a failed task is an error; the key is looked up at key 200 in the list read before the reconfigure |
| AddCdromStep.RunCorrected | Zitac.VmWare/Steps/AddCDROM.cs:84-166 | the same step, with the key looked up at the chosen controller in the refreshed list |
| AddCdromStep.NewCdromSlot | Zitac.VmWare/Steps/AddCDROM.cs:91-138 | the drive goes to a free unit 0 or 1 on an IDE key at or above 200; the change list holds the IDE controller exactly when none was found, followed by the connected ISO drive |
| AddCdromStep.AsWrittenMissesCdromOn200 | Zitac.VmWare/Steps/AddCDROM.cs:160-166 | when the chosen controller is 200, the as-written lookup always reports null |
| AddCdromStep.AsWrittenReportsNoKey | Zitac.VmWare/Steps/AddCDROM.cs:160-166 | a concrete machine where the drive lands on 200/0, the as-written lookup is null, and the refreshed list holds the new key |
| AddCdromStep.CorrectedReportsNewCdromKey | Zitac.VmWare/Steps/AddCDROM.cs:160-166 | the corrected lookup reports the new drive's key |
| FolderStructure.WalkAppend | Zitac.VmWare/Steps/GetFolderStructureByDatacenter.cs:139-160 | walking two child lists is walking each in turn |
| FolderStructure.ListVmFolders | Zitac.VmWare/Steps/GetFolderStructureByDatacenter.cs:139-160 | the recursive walk appends the pre-order list of folders to the list it is given |
| FolderStructure.WalkLength | Zitac.VmWare/Steps/GetFolderStructureByDatacenter.cs:139-160 | one entry per folder reachable through folders |
| FolderStructure.FoldersOnly | Zitac.VmWare/Steps/GetFolderStructureByDatacenter.cs:145 | the filter keeps folders of the child list only |
| FolderStructure.OnlyFoldersWalked | Zitac.VmWare/Steps/GetFolderStructureByDatacenter.cs:145 | non-folder children contribute nothing |
| FolderStructure.WalkPaths | Zitac.VmWare/Steps/GetFolderStructureByDatacenter.cs:150-153 | every path ends in the folder's name and starts with the parent path and "/"; each direct Folder child is listed with the parent path, "/" and its name, or its bare name at the top |
| FolderStructure.PathLeTotal | Zitac.VmWare/Steps/GetFolderStructureByDatacenter.cs:104 | the ordinal path order is total |
| FolderStructure.PathLeTransitive | Zitac.VmWare/Steps/GetFolderStructureByDatacenter.cs:104 | the ordinal path order is transitive |
| FolderStructure.PathLeAntisymmetric | Zitac.VmWare/Steps/GetFolderStructureByDatacenter.cs:104 | the ordinal path order is antisymmetric |
| FolderStructure.InsertPermutes | Zitac.VmWare/Steps/GetFolderStructureByDatacenter.cs:104 | insertion adds exactly the element |
| FolderStructure.InsertSorted | Zitac.VmWare/Steps/GetFolderStructureByDatacenter.cs:104 | insertion keeps a list sorted by path |
| FolderStructure.WithPathAppend | Zitac.VmWare/Steps/GetFolderStructureByDatacenter.cs:104 | selecting by path distributes over concatenation |
| FolderStructure.InsertStable | Zitac.VmWare/Steps/GetFolderStructureByDatacenter.cs:104 | insertion puts the element after every equal path |
| FolderStructure.NoneWithPath | Zitac.VmWare/Steps/GetFolderStructureByDatacenter.cs:104 | a sorted list whose first path is above p holds no entry with path p |
| FolderStructure.SortByPathCorrect | Zitac.VmWare/Steps/GetFolderStructureByDatacenter.cs:104 | OrderBy(Path) yields a sorted permutation that keeps equal paths in their original order |
| FolderStructure.Run | Zitac.VmWare/Steps/GetFolderStructureByDatacenter.cs:96-135 | no datacenter gives No Results or an empty Done; otherwise Done with the folders walked from the VM folder, sorted by path |
| FolderById.GetFolder | Zitac.VmWare/Steps/GetFolderByID.cs:155-185 | a folder found has the requested id |
| FolderById.FirstWithIdIsFirst | Zitac.VmWare/Steps/GetFolderByID.cs:155-185 | the first entry with the id is returned, and none iff no entry has it |
| FolderById.FirstWithIdAppend | Zitac.VmWare/Steps/GetFolderByID.cs:159-182 | the search of the first children wins over the later ones |
| FolderById.GetFolderIsFirstListed | Zitac.VmWare/Steps/GetFolderByID.cs:155-185 | the depth-first search returns the first folder with the id in the order the folder structure step lists them |
| FolderById.NotFoundIffUnlisted | Zitac.VmWare/Steps/GetFolderByID.cs:155-185 | not found iff no listed folder has the id; otherwise the first listed one |
| FolderById.Run | Zitac.VmWare/Steps/GetFolderByID.cs:98-151 | no datacenter or no match gives No Results when asked, else Done with the folder or null |
| Snapshots.PowerStateNameInjective | Zitac.VmWare/Steps/GetSnapShotsByVM.cs:134 | distinct power states get distinct names |
| Snapshots.ProcessSnapshotTree | Zitac.VmWare/Steps/GetSnapShotsByVM.cs:127-147 | one snapshot per tree entry |
| Snapshots.ProcessSnapshotTreeAt | Zitac.VmWare/Steps/GetSnapShotsByVM.cs:130-144 | each snapshot copies name, id, state name, description and time, and converts children iff the child list is not null |
| Snapshots.ShapePreserved | Zitac.VmWare/Steps/GetSnapShotsByVM.cs:127-147 | the converted forest has the shape of the snapshot tree |
| Snapshots.NodeCountPreserved | Zitac.VmWare/Steps/GetSnapShotsByVM.cs:127-147 | no snapshot is lost or duplicated at any depth |
| Snapshots.Run | Zitac.VmWare/Steps/GetSnapShotsByVM.cs:89-123 | a null VM view throws a null reference, caught as an Error; no snapshot info gives No Results iff asked, else an empty Done; a null root list throws a null reference; otherwise Done with the converted root list, one entry per root |
| VmDiskInfo.ProvisioningType | Zitac.VmWare/Classes/VmDisk.cs:55-66 | thin iff thin-provisioned; else eager-zeroed thick iff eagerly scrubbed; else lazy-zeroed thick |
| VmDiskInfo.FromDisk | Zitac.VmWare/Classes/VmDisk.cs:45-73 | label, key, capacity and slot are copied; type, mode and file are set iff the backing is flat version 2; datastore iff it has one |
| VmCdromInfo.FromCdrom | Zitac.VmWare/Classes/VmCDROM.cs:32-51 | type ISO, Host Device or null by backing, with the file or device name, the ISO's datastore and the connection flags |
| VmNicInfo.FromNic | Zitac.VmWare/Classes/VmNic.cs:32-45 | label and MAC copied; network name and id set iff the backing is a network backing; connection flags copied |
| VmInfo.FromMachine | Zitac.VmWare/Classes/VM.cs:52-86 | the VM holds the machine's fields and its disks, NICs and drives |
| VmInfo.SortingKeepsOrder | Zitac.VmWare/Classes/VM.cs:66-82 | each device list keeps the order of the device array |
| VmInfo.SortedByClass | Zitac.VmWare/Classes/VM.cs:66-82 | a listed disk, NIC or drive is exactly the conversion of a device of that class |
| VmInfo.EachDeviceOnce | Zitac.VmWare/Classes/VM.cs:66-82 | every device lands in at most one list, and all are kept iff every device is a disk, NIC or drive |
| VmInfo.DroppedCountZero | Zitac.VmWare/Classes/VM.cs:66-82 | nothing is dropped iff every device is a disk, NIC or drive |
| CreateVmStep.WrapInt32 | Zitac.VmWare/Steps/CreateVM.cs:151 | the result is the 32-bit value congruent to the input |
| CreateVmStep.MemoryMB | Zitac.VmWare/Steps/CreateVM.cs:151 | null memory stays null; in range it is GB times 1024 |
| CreateVmStep.MemoryWrapsAt2PB | Zitac.VmWare/Steps/CreateVM.cs:151 | 2097152 GB overflows to the lowest int |
| CreateVmStep.BuildConfigSpec | Zitac.VmWare/Steps/CreateVM.cs:149-234 | name, CPUs, guest id, memory and path are set; the device list holds the disk pair, the ISO drive and the NIC, each iff its input is given |
| CreateVmStep.DeviceListShape | Zitac.VmWare/Steps/CreateVM.cs:157-234 | the devices come in the order controller, disk, drive, NIC; the disk sits at unit 0 of the new controller with the size in KB and a create file operation |
| CreateVmStep.Run | Zitac.VmWare/Steps/CreateVM.cs:105-265 | a null or empty host search throws first; then a null datastore, a null network for a given id, or a null folder or resource pool throws before the task starts; the task gets the built spec with folder, pool and first host; a failed task reports its message; success returns the description of the created machine |
| ChangeNetworkStep.FindNic | Zitac.VmWare/Steps/ChangeNetwork.cs:98-104 | the first device that is an Ethernet card with the key, and none iff there is none |
| ChangeNetworkStep.Run | Zitac.VmWare/Steps/ChangeNetwork.cs:85-231 | each failed lookup gives its own error; a "dvportgroup" id gets a distributed port backing, any other id a network backing; a failed task is an error |
| ChangeNetworkStep.EditKeepsAdapter | Zitac.VmWare/Steps/ChangeNetwork.cs:132-182 | an edit keeps the adapter's key, label, slot, connection and MAC, and only swaps the backing |
| DatastoreClusters.HasAssociatedHosts | Zitac.VmWare/Steps/GetDatastoreClusters.cs:152-166 | true when hostless pods are allowed, else iff a datastore has a host; the loop stops at the first such datastore |
| DatastoreClusters.Run | Zitac.VmWare/Steps/GetDatastoreClusters.cs:142-216 | no pod list gives No Results or an empty Done; otherwise Done with the kept pods |
| DatastoreClusters.KeptExactly | Zitac.VmWare/Steps/GetDatastoreClusters.cs:146-178 | a cluster is listed iff it comes from a non-null pod that passes the host and DRS checks |
| DatastoreClusters.KeptKeepsOrder | Zitac.VmWare/Steps/GetDatastoreClusters.cs:144-180 | clusters keep the order of the pods |
| DatastoreClusters.SettingsOnlyWiden | Zitac.VmWare/Steps/GetDatastoreClusters.cs:152-171 | turning either include switch on never removes a cluster |
| Wrappers.PollingOutcomes | Zitac.VmWare/Steps/PowerOnVM.cs:99-117 | the shared outcome list: Done first with its data, Error last, Timeout iff asked, and the guard outcome iff given |
| PowerOnStep.OutcomeScenarios | Zitac.VmWare/Steps/PowerOnVM.cs:99-117 | Done first and Error last; Timeout iff waiting with a timeout; Already Running iff asked |
| PowerOnStep.BootWait | Zitac.VmWare/Steps/PowerOnVM.cs:190-219 | the boot wait ends only in Done or Timeout |
| PowerOnStep.WaitForBoot | Zitac.VmWare/Steps/PowerOnVM.cs:190-219 | the loop computes the boot wait from counter 5 |
| PowerOnStep.BootWaitTimeout | Zitac.VmWare/Steps/PowerOnVM.cs:190-219 | Timeout iff the limit is reached at a poll where the guest has not been seen up |
| PowerOnStep.BootWaitDone | Zitac.VmWare/Steps/PowerOnVM.cs:190-219 | Done iff the guest is seen up before the limit is reached |
| PowerOnStep.TimeoutBeatsBoot | Zitac.VmWare/Steps/PowerOnVM.cs:195-219 | a guest seen up on the poll whose counter reaches the limit still times out: the guest test sets the flag, but the counter test after it returns before the loop condition is read again |
| PowerOnStep.NoTimeoutUnlessSpecified | Zitac.VmWare/Steps/PowerOnVM.cs:190-219 | without "specify timeout" the wait never times out |
| PowerOnStep.Run | Zitac.VmWare/Steps/PowerOnVM.cs:142-227 | null machine, missing tools and already on are handled before any task; a failed task is an error; then Done or the boot wait; every outcome is listed |
| PowerOffStep.OutcomeScenarios | Zitac.VmWare/Steps/PowerOffVM.cs:111-129 | Done first and Error last; Timeout iff waiting with a timeout; Not Running iff asked |
| PowerOffStep.ShutdownWait | Zitac.VmWare/Steps/PowerOffVM.cs:187-214 | the power-off wait ends only in Done or Timeout |
| PowerOffStep.WaitForPowerOff | Zitac.VmWare/Steps/PowerOffVM.cs:187-214 | the loop computes the power-off wait from counter 5 |
| PowerOffStep.ShutdownWaitTimeout | Zitac.VmWare/Steps/PowerOffVM.cs:187-214 | Timeout iff the limit is reached while no poll so far, the current one included, saw the machine off |
| PowerOffStep.ShutdownWaitDone | Zitac.VmWare/Steps/PowerOffVM.cs:187-214 | Done iff a poll sees the machine off before the limit is reached |
| PowerOffStep.Run | Zitac.VmWare/Steps/PowerOffVM.cs:152-219 | null machine throws; soft power-off needs tools; a machine not on is Not Running or an error; otherwise a hard or a guest shutdown request, then Done or the wait; every outcome is listed |
| RebootStep.OutcomeScenarios | Zitac.VmWare/Steps/RebootVM.cs:88-102 | Done first and Error last; Timeout iff waiting with a timeout |
| RebootStep.RebootWait | Zitac.VmWare/Steps/RebootVM.cs:127-163 | the reboot wait ends only in Done or Timeout |
| RebootStep.WaitForReboot | Zitac.VmWare/Steps/RebootVM.cs:127-163 | the loop computes the reboot wait from counter 5, with no shutdown seen |
| RebootStep.LatchedIsBootWait | Zitac.VmWare/Steps/RebootVM.cs:145-161 | once a shutdown has been seen, the reboot wait is the power-on boot wait |
| RebootStep.NoRebootWithoutShutdown | Zitac.VmWare/Steps/RebootVM.cs:145-154 | without a poll showing tools stopped the reboot never completes |
| RebootStep.RebootAfterFirstShutdown | Zitac.VmWare/Steps/RebootVM.cs:127-163 | after the first tools-stopped poll the reboot wait is a boot wait on the rest, unless the limit was reached at that poll |
| RebootStep.NoTimeoutUnlessSpecified | Zitac.VmWare/Steps/RebootVM.cs:155-161 | without "specify timeout" the wait never times out |
| RebootStep.Run | Zitac.VmWare/Steps/RebootVM.cs:125-171 | a failed reboot request is an error with its message; otherwise Done or the reboot wait; every outcome is listed |
| Base64.SymbolCharInverse | Zitac.VmWare/Steps/RunPowershellScriptOnVM.cs:188 | decoding an alphabet character of a symbol gives the symbol back |
| Base64.CharSymbolInverse | Zitac.VmWare/Steps/RunPowershellScriptOnVM.cs:188 | a character that decodes encodes back to itself |
| Base64.SymbolsOfChars | Zitac.VmWare/Steps/RunPowershellScriptOnVM.cs:188 | reading back written symbols gives the symbols |
| Base64.CharsOfSymbols | Zitac.VmWare/Steps/RunPowershellScriptOnVM.cs:188 | writing read symbols gives the text |
| Base64.BytesFromSextets | Zitac.VmWare/Steps/RunPowershellScriptOnVM.cs:188 | three bytes split into four sextets and join back |
| Base64.SextetsFromBytes | Zitac.VmWare/Steps/RunPowershellScriptOnVM.cs:188 | four sextets join into three bytes and split back |
| Base64.EncodeSymbols | Zitac.VmWare/Steps/RunPowershellScriptOnVM.cs:188 | the encoding is made of alphabet symbols and padding |
| Base64.Encode | Zitac.VmWare/Steps/RunPowershellScriptOnVM.cs:188 | every output character is in the base64 alphabet or "=" (the length and the round trips are the lemmas below) |
| Base64.EncodeLength | Zitac.VmWare/Steps/RunPowershellScriptOnVM.cs:188 | n bytes encode to 4 times ceil(n / 3) characters |
| Base64.DecodeEncode | Zitac.VmWare/Steps/RunPowershellScriptOnVM.cs:188 | the strict decoder recovers every encoded byte string |
| Base64.EncodeDecode | Zitac.VmWare/Steps/RunPowershellScriptOnVM.cs:188 | every text the strict decoder accepts is the encoding of what it decodes to |
| Utf16.CharUnitsRoundTrip | Zitac.VmWare/Steps/RunPowershellScriptOnVM.cs:187 | one character's code units decode back to it |
| Utf16.EncodeUnits | Zitac.VmWare/Steps/RunPowershellScriptOnVM.cs:187 | the units are well formed, one or two per character |
| Utf16.DecodeEncodeUnits | Zitac.VmWare/Steps/RunPowershellScriptOnVM.cs:187 | decoding the units of a string gives the string |
| Utf16.EncodeDecodeUnits | Zitac.VmWare/Steps/RunPowershellScriptOnVM.cs:187 | units that decode are the encoding of their decoding |
| Utf16.BytesUnitsRoundTrip | Zitac.VmWare/Steps/RunPowershellScriptOnVM.cs:187 | units written low byte first read back |
| Utf16.UnitBytesRoundTrip | Zitac.VmWare/Steps/RunPowershellScriptOnVM.cs:187 | an even byte string read as units writes back to itself |
| Utf16.Encode | Zitac.VmWare/Steps/RunPowershellScriptOnVM.cs:187 | Encoding.Unicode gives an even number of bytes, 2 to 4 per character |
| Utf16.DecodeEncode | Zitac.VmWare/Steps/RunPowershellScriptOnVM.cs:187 | every string is recovered from its UTF-16LE bytes |
| Utf16.EncodeDecode | Zitac.VmWare/Steps/RunPowershellScriptOnVM.cs:187 | bytes that decode are the encoding of their decoding |
| RunScriptStep.OutcomeScenarios | Zitac.VmWare/Steps/RunPowershellScriptOnVM.cs:104-129 | Done first, carrying "Return Code" iff waiting; Error last; Timeout iff waiting with a timeout; Not Running iff asked |
| RunScriptStep.ArgumentsCarryScript | Zitac.VmWare/Steps/RunPowershellScriptOnVM.cs:187-194 | the arguments start with the fixed flags and the script can be read back from them |
| RunScriptStep.ArgumentsInjective | Zitac.VmWare/Steps/RunPowershellScriptOnVM.cs:187-194 | different scripts give different command lines |
| RunScriptStep.HasExitedIsAny | Zitac.VmWare/Steps/RunPowershellScriptOnVM.cs:210 | exited iff some listed process with the id has an end time |
| RunScriptStep.CompletionWait | Zitac.VmWare/Steps/RunPowershellScriptOnVM.cs:202-231 | the wait ends only in Timeout or Done with an exit code |
| RunScriptStep.WaitForExit | Zitac.VmWare/Steps/RunPowershellScriptOnVM.cs:202-231 | the loop computes the completion wait from counter 5 |
| RunScriptStep.CompletionDone | Zitac.VmWare/Steps/RunPowershellScriptOnVM.cs:202-231 | Done with a code iff a listing shows the process ended before the limit, and the code is the first listed process's exit code |
| RunScriptStep.CompletionTimeout | Zitac.VmWare/Steps/RunPowershellScriptOnVM.cs:202-231 | Timeout iff the limit is reached while no listing so far, the current one included, shows the process ended |
| RunScriptStep.StartAndWait | Zitac.VmWare/Steps/RunPowershellScriptOnVM.cs:185-236 | PowerShell is started with the encoded script; the result is Done without a code, or the completion wait; every outcome is listed |
| RunScriptStep.Run | Zitac.VmWare/Steps/RunPowershellScriptOnVM.cs:137-236 | null machine throws; missing tools and not on are handled before anything starts; a null script throws when encoded, before any program starts; otherwise PowerShell gets the encoded script; Done carries a return code iff waiting; every outcome is listed |

## Left out

- The SDK session (connect, login, logout, certificate handling) and the credentials lookup are not modelled: every SDK read is an input.
- `Thread.Sleep` between polls is left out. A poll sequence stands for the successive reads, and `StillPolling` stands for a sequence that ends too early.
- The "Error Message" of a caught exception is the exception's message alone. The type name and stack trace that `e.ToString()` adds are left out.
- Timeout counters and the maximum timeout are unbounded integers: their 32-bit overflow needs hundreds of millions of polls.
- FolderStructure.SortByPathCorrect: `OrderBy(o => o.Path)` uses the culture-aware string comparer, and the model sorts by ordinal character order instead.
- ChangeNetworkStep.IsPortgroupId: `StartsWith("dvportgroup")` is culture-aware in .NET, and the model tests it ordinally.
- The `new VM(vm)` built and discarded in AddDisk and AddCDROM is left out; its exceptions on incomplete SDK views (a null Config, Guest or device field) are not modelled.
- VmGuestTools and the guest information in VM.cs beyond the device lists are left out. They are plain copies of SDK fields.
- Utf16.Encode: `Encoding.Unicode` replaces a lone surrogate with U+FFFD. The model's strings are sequences of Unicode scalar values, so they contain no lone surrogates.
- Base64.Decode and Utf16.Decode are strict decoders written as partners of the encoders. They are not .NET's lenient `Convert.FromBase64String`, which is not used by the source.
- CreateVM's lookups of host, folder, resource pool, datastore and network are inputs. How the datacenter id changes the search root is left out, because the source never passes that root to the folder or pool search.
- Messages of exceptions the .NET runtime throws (null reference, null argument, index out of range) are given in .NET Core's wording.
- UploadISO, DeleteVM, the snapshot create/revert steps, Rename VM and the plain listing steps (GetAllVMs, GetClusters, GetDatacenters, GetDatastores, GetNetworks and the like) are not part of this model.
- A GetView that throws rather than returning null is not modelled.
- PowerOffStep.Run: the hard power-off task is started but never awaited by the source, so the model records only the request.
- RebootStep.Run: RebootGuest's exception is an input, `rebootFault`.
- The process listing's filtering by process id is done by the SDK. The model takes each listing as given and checks the id itself.
- Console logging and the workflow host's step metadata (input mappings, data descriptions) are left out. The outcome lists are modelled.

## Findings

| source | as written | input that shows it | evidently intended | confidence | as-written member | corrected member |
|---|---|---|---|---|---|---|
| Zitac.VmWare/Steps/AddCDROM.cs:160-166 | the new drive's key is looked up at the starting controller key 200, in the device list read before the reconfigure and never refreshed | devices = one IDE controller with key 200 and bus 0, and nothing attached; the drive is placed on controller 200, unit 0; after the reconfigure a drive with key 3000 sits there, yet the step reports a null key | look the key up at the chosen controller in the refreshed device list, as AddDisk.cs:163-171 does, which reports 3000 | not executed | AddCdromStep.AsWrittenReportsNoKey | AddCdromStep.CorrectedReportsNewCdromKey |
