# greens PCI function: a verified model

A Dafny model of the emulated PCI function in `greens-pci` and of the virtio layer on top of it. A
function is a 256-byte configuration space (registers and writable bits), six BAR slots, a capability
list threaded through the register bytes, INTx, MSI and MSI-X interrupt state, and copies of some of
that state kept by the device. The guest drives it with configuration writes and BAR writes of any
width and in any order, the device with signals. The model follows every branch of the code and
proves what holds over all inputs and all runs.

Machine words are bit strings, least significant bit first (`Bits`), registers are sequences of
bytes, and the unsigned value of a field is `Val`. Specifications are functions on values. Where the
source updates objects in place there is a class whose methods are proved against these functions:
`ConfigurationSpace`, whose register arrays `IntxHandler` and `MsiHandler` share, `MsixHandler` with its own
arrays, `PciFunction`, which owns them all, and `CommonCfgRegion`.

| file | content |
|---|---|
| Basics, Bits, RegisterBlock | errors, intervals, bit strings, masked byte blocks |
| ConfigSpace, Bars, BarDecoding | guest writes, BAR allocation, probing and decoding |
| Capabilities, CapabilityList, SpaceRuns, Reachable, HeaderRuns | the list in the bytes, all reachable spaces and their headers |
| MsixCore, MsixEvaluation, MsixTable, MsixRuns, MsixLedger | MSI-X |
| MsiCore, MsiEvaluation, MsiConfig, MsiRuns | MSI |
| Intx | the interrupt line |
| Routing, Window, Notify, NotifyRouting | address routing, the configuration access window, the notification address |
| WholeFunction, FunctionRuns, FunctionSignals, FunctionLine, FunctionStart | the whole function, its event reporting, all its runs, its signals, its line, and where runs start |
| CommonCfg | the virtio common configuration region |
| SpaceObject, InterruptObjects, FunctionObject, CommonCfgObject | the in-place objects |

Some promises do not hold of the code on all inputs. Each of these has a lemma with the exact condition:

* MSI-X evaluation can overlook pending vectors when the pending bits span more than one word
  (`CompleteIffNoStranded`, `QuietIffOneWord`).
* The INTx line follows its register bits only from a synchronised state, and `build` does not leave one
  (`AgreementIffSynchronised`, `BuildIsNotSynchronised`).
* The stored notification address goes stale for a 64-bit BAR smaller than 4 GiB (`CoherenceIffPrompt`).
* A table write across an entry boundary leaves a cached message stale (`CoherenceIffWithinEntry`).
* A 64-bit BAR is decoded during a size probe, and no access can reach it there (`Probed64IsDecoded`,
  `InRangeRoutes`).
* A 64-bit BAR smaller than 4 GiB and programmed at 4 GiB minus its size is not decoded (`ProgrammedAddress`,
  `ProbeValue`).
* An I/O BAR at or above 64 KiB cannot be reached by port (`PortsReachLow`).
* An access through the window can leave the selected BAR (`ResolvesToSelection`, `ResolvesToNeighbour`).
* MSI without per-vector masking never sends (`MsiGeneratesIff`).
* A two-byte QueueReset write resets nothing by itself (`ResetIffArmed`, `NarrowNeverResets`).
* A common-configuration write at offsets 15 to 23 changes the shadow queue select (`KeepsSelectIff`).

## Model

| member | source | states |
|---|---|---|
| `RegisterBlock.WriteInPlace` | crates/greens-pci/src/utils/register_block.rs:72-80 | the element-wise store loop over a byte array leaves exactly the masked store of the data, every other byte untouched |
| `RegisterBlock.SetInPlace` | crates/greens-pci/src/utils/register_block.rs:23-25 | the copy loop leaves exactly the data at its offset and every other byte untouched |
| `RegisterBlock.WriteKeepsReadOnly` | crates/greens-pci/src/utils/register_block.rs:82-90 | no store, of any width and data, changes a read-only bit |
| `RegisterBlock.WriteRestores` | crates/greens-pci/src/utils/register_block.rs:72-90 | a block that differs from an earlier one in writable bits of a range only is restored by writing that range's old bytes back |
| `RegisterBlock.FullyWritable` | crates/greens-pci/src/utils/register_block.rs:72-90 | where all bits are writable a masked store is a plain copy |
| `Basics.ContainsMeansEveryAddress` | crates/greens-pci/src/utils/mod.rs:37-69 | interval containment holds if and only if every accessed address lies in the range |
| `Basics.OverlapsMeansSharedAddress` | crates/greens-pci/src/utils/mod.rs:55-69 | interval overlap holds if and only if the two ranges share an address |
| `ConfigSpace.GuestRunFrame` | crates/greens-pci/src/configuration_space.rs:383-427 | no sequence of guest writes, accepted or not and of any width, changes a read-only bit, a writable mask, the BAR table or the size of the last capability |
| `ConfigSpace.AcceptedInOneDword` | crates/greens-pci/src/configuration_space.rs:442-457 | an access that passes the validators stays inside one dword |
| `ConfigSpace.AcceptedIff` | crates/greens-pci/src/configuration_space.rs:383-402 | exactly the naturally aligned accesses of one, two or four bytes inside the 256 bytes are accepted |
| `ConfigSpace.AccessErrors` | crates/greens-pci/src/configuration_space.rs:383-402 | a rejected access gets the error of the first failing check: size, alignment, bounds |
| `SpaceObject.ConfigurationSpace.constructor` | crates/greens-pci/src/configuration_space.rs:28-40 | a new object shows the empty space: vendor id all ones, nothing writable, no BARs |
| `SpaceObject.ConfigurationSpace.WriteChecked` | crates/greens-pci/src/configuration_space.rs:420-427 | the in-place write is the guest write of the model; a rejected one reports the first failing check and changes nothing |
| `SpaceObject.ConfigurationSpace.AddBar` | crates/greens-pci/src/configuration_space.rs:106-190 | in-place `add_bar` accepts exactly the BARs of `BarAcceptedIff`, returns the error of the first failing check with nothing changed, and otherwise leaves the placed BAR, with just its enable bit added to the Command mask |
| `SpaceObject.ConfigurationSpace.FindEnd` | crates/greens-pci/src/configuration_space.rs:235-252 | the iterator loop terminates on a built list and finds the end of the last capability, dword aligned, and its start |
| `SpaceObject.ConfigurationSpace.AddCapability` | crates/greens-pci/src/configuration_space.rs:235-275 | in place: succeeds if and only if the capability fits, then the bytes hold the old sequence plus the new element at the returned offset; on failure nothing has changed |
| `Bars.AddBarKeepsInvariant` | crates/greens-pci/src/configuration_space.rs:106-190 | an accepted BAR keeps the register invariant of all BARs: writable exactly from the size bit up, flag bits constant below, no register shared |
| `Bars.BarAcceptedIff` | crates/greens-pci/src/configuration_space.rs:106-175 | a BAR is accepted if and only if the header type has its register, its size is a power of two in the range of its kind, its address is non-zero, aligned and in reach, and every register it needs exists and has no owner |
| `Bars.BarErrors` | crates/greens-pci/src/configuration_space.rs:106-160 | a rejected BAR gets the error of the first condition that fails: header, index, size, address, alignment, overflow, register in use, no upper register |
| `Bars.PlaceBarCommand` | crates/greens-pci/src/configuration_space.rs:139-168 | `add_bar` makes bit 0 (I/O) or bit 1 (memory) of the byte at 0x04 writable and leaves the rest of the Command mask, Command and Status as they were |
| `Bars.DecodedIff` | crates/greens-pci/src/configuration_space.rs:192-233 | a BAR is decoded if and only if it exists, bit 0 (I/O) or bit 1 (memory) of the byte at 0x04 is set and the address in its registers is neither 0 nor the probe value |
| `Bars.BarsInvariantGuest` | crates/greens-pci/src/configuration_space.rs:383-427 | guest writes of any width keep the register invariant of all BARs |
| `Bars.PlaceBarFrame` | crates/greens-pci/src/configuration_space.rs:131-189 | `add_bar` touches nothing behind the BAR registers |
| `BarDecoding.ProbeRoundTrip` | crates/greens-pci/src/configuration_space.rs:170-186 | for every placed BAR, I/O, 32-bit or 64-bit over two registers: all ones, read back, clear flags, two's complement gives the size, and writing the saved value back restores the whole space |
| `BarDecoding.ProgrammedBits` | crates/greens-pci/src/configuration_space.rs:192-233 | whatever is written to a BAR's registers is decoded as the written value with the bits below its size cleared |
| `BarDecoding.ProgrammedAddress` | crates/greens-pci/src/configuration_space.rs:192-233 | an aligned non-zero address written to an enabled BAR of any kind, through both registers of a 64-bit one, is the address `get_bar` reports, if and only if it is not the probe value |
| `BarDecoding.ProbeValue` | crates/greens-pci/src/configuration_space.rs:221-225 | the probe value is 4 GiB minus the size, for 64-bit BARs too, and 0 for sizes above 4 GiB |
| `BarDecoding.InitialAddress` | crates/greens-pci/src/configuration_space.rs:131-188 | the address a BAR was added with is the address in its registers |
| `BarDecoding.DecodedAligned` | crates/greens-pci/src/configuration_space.rs:192-233 | a decoded BAR has a non-zero address that is a multiple of its size |
| `BarDecoding.DecodedBelow4G` | crates/greens-pci/src/configuration_space.rs:192-233 | a decoded 32-bit or I/O BAR satisfies address + 2 * size <= 2^32, one size more than promised |
| `BarDecoding.HiddenWhileProbed` | crates/greens-pci/src/configuration_space.rs:221-225 | a 32-bit or I/O BAR is not decoded while all its writable bits are ones |
| `BarDecoding.Probed64IsDecoded` | crates/greens-pci/src/configuration_space.rs:209-230 | a 64-bit BAR is decoded even then, with address + size equal to 2^64: the probe comparison covers the low 32 bits only |
| `CapabilityList.WholeWalk` | crates/greens-pci/src/configuration_space.rs:552-597 | walking a built list ends and yields exactly its elements in order, however often the iterator is called |
| `CapabilityList.BackPointerEnds` | crates/greens-pci/src/configuration_space.rs:578-597 | a list of two elements that points back at itself ends after one element, reserved pointer bits ignored |
| `CapabilityList.AddAppends` | crates/greens-pci/src/configuration_space.rs:235-275 | `add_capability` succeeds if and only if the capability fits and then appends one element at the returned offset |
| `SpaceRuns.RunKeeps` | crates/greens-pci/src/configuration_space.rs:106-275 | any run of builder stores, BAR and capability additions, accepted or rejected, interrupt set-up, status changes and guest writes keeps the BAR invariant and makes the list the sequence of accepted capabilities |
| `SpaceRuns.ListRefinesSequence` | crates/greens-pci/src/configuration_space.rs:519-597 | after any run from an empty space, builder stores included, the walk yields the accepted capabilities at the returned offsets, dword aligned, strictly increasing, disjoint, inside 0x40..0xFF, and `last_cap_size` is the last one's size |
| `SpaceRuns.HoldsGuest` | crates/greens-pci/src/configuration_space.rs:383-427 | guest writes cannot unlink, move or retype a capability |
| `SpaceRuns.OneOwnerPerRegister` | crates/greens-pci/src/configuration_space.rs:106-190 | after any run each of the six registers belongs to at most one BAR, counting upper halves of 64-bit BARs |
| `HeaderRuns.RunHeader` | crates/greens-pci/src/configuration_space.rs:106-275 | in every run the enable bit of every placed BAR is writable, Status is read-only, and Command bits once writable stay so |
| `HeaderRuns.GuestTurnsOn` | crates/greens-pci/src/configuration_space.rs:192-233 | end to end, for any BAR of any reachable space: the guest writes the enable bit and then an aligned non-zero address, and `get_bar` reports it unless it is the probe value |
| `HeaderRuns.ListFlag` | crates/greens-pci/src/configuration_space.rs:261-270 | after every run the Capabilities List bit of Status is set if and only if a capability was accepted |
| `HeaderRuns.IntxRegisters` | crates/greens-pci/src/intx.rs:73-82 | `init_intx` stores the pin, makes the line register writable and adds just Interrupt Disable to the Command mask |
| `HeaderRuns.ReachableIntx` | crates/greens-pci/src/intx.rs:73-82 | after `init_intx` anywhere in a run the guest can write Interrupt Disable and not Interrupt Status; after `allow_bus_master`, Bus Master |
| `Reachable.ReachableProbe` | crates/greens-pci/src/configuration_space.rs:160-186 | in every reachable space, whatever header the builder stored, the size probe reads every BAR's size and can be undone |
| `Reachable.ReachableDecode` | crates/greens-pci/src/configuration_space.rs:192-233 | in every reachable space decoded BARs are non-zero and aligned, narrow ones end below 4 GiB |
| `Reachable.GuestRunKeepsLayout` | crates/greens-pci/src/configuration_space.rs:383-427 | no run of guest writes changes what the iterator yields, the capability pointer, a capability header or the BAR table |
| `Reachable.GuestRunKeepsBarKind` | crates/greens-pci/src/configuration_space.rs:182-186 | no run of guest writes changes the type bits of a BAR |
| `Reachable.GuestRunKeepsMsiLayout` | crates/greens-pci/src/msi.rs:239-335 | no run of guest writes changes the MSI layout bits, so all computed field offsets and the capability size stay |
| `MsixCore.FindPending` | crates/greens-pci/src/msix.rs:655-683 | the search returns the least pending v with v/64 >= since/64 and v%64 >= since%64, or none if there is no such vector |
| `MsixCore.SetPending` | crates/greens-pci/src/msix.rs:276-293 | sets exactly the bit of the vector; an error, and no change, exactly for vectors past the array |
| `MsixEvaluation.MsixGeneratesIff` | crates/greens-pci/src/msi.rs:70-94 | for every vector and pending state: with Bus Master, enable, an entry and a pending bit, an unmasked vector leaves with its entry's message and a clear bit, a masked one is pending; otherwise nothing leaves |
| `InterruptObjects.MsixHandler.SetPendingBit` | crates/greens-pci/src/msix.rs:276-293 | the in-place update of the word is that operation |
| `InterruptObjects.MsixHandler.FindPendingVector` | crates/greens-pci/src/msix.rs:655-683 | the loop over the words returns the least eligible vector |
| `InterruptObjects.MsixHandler.TryGenerateMessage` | crates/greens-pci/src/msi.rs:70-94 | in place: generated exactly under the gates of `MsixGeneratesIff`, and the pending bit afterwards is the mask |
| `InterruptObjects.MsixHandler.EvaluatePendingInterrupts` | crates/greens-pci/src/msix.rs:685-702 | the while loop terminates and does to array and message log what the model's evaluation does |
| `InterruptObjects.MsixHandler.WriteTable` | crates/greens-pci/src/msix.rs:575-601 | the in-place table write stores, evaluates and reports as the model does; out of bounds nothing happens |
| `MsixEvaluation.VisitsAscend` | crates/greens-pci/src/msix.rs:685-702 | the loop looks at pending vectors only, in strictly ascending order, so at none twice |
| `MsixEvaluation.EvaluateExact` | crates/greens-pci/src/msix.rs:685-702 | for any array length: one message with the entry's address and data per visited deliverable vector, in order, and exactly the bits of visited unmasked vectors are cleared |
| `MsixEvaluation.CompleteIffNoStranded` | crates/greens-pci/src/msix.rs:662-672 | the loop looks at every pending vector if and only if each pending vector sits in the last bit of its word or in a lower bit than the next pending one |
| `MsixEvaluation.OneWordComplete` | crates/greens-pci/src/msix.rs:655-702 | a one-word array is always searched completely |
| `MsixEvaluation.TwoWordsCanStrand` | crates/greens-pci/src/msix.rs:662-672 | with two words it is not: 5 and 66 pending, 66 is never looked at |
| `MsixEvaluation.EvaluateComplete` | crates/greens-pci/src/msix.rs:685-702 | with a complete search every pending unmasked vector is sent once in ascending order and exactly the masked ones stay pending |
| `MsixTable.MasksUnchanged` | crates/greens-pci/src/msix.rs:604-616 | a table write that does not target Vector Control changes no mask, however many entries it spans |
| `MsixTable.EvaluatesExactly` | crates/greens-pci/src/msix.rs:575-616 | a write inside an entry evaluates, with its bytes stored, exactly if it touches Vector Control; any other sends nothing and keeps every pending bit |
| `MsixTable.ProgrammedEntry` | crates/greens-pci/src/msix.rs:187-195 | a programmed entry gives the message with that data and that 64-bit address, low two bits cleared, and the mask of bit 0 of Vector Control |
| `MsixTable.NaturalAccess` | crates/greens-pci/src/msix.rs:575-601 | a naturally aligned access of up to eight bytes stays inside one entry |
| `MsixTable.ReportedExactly` | crates/greens-pci/src/msix.rs:575-601 | a write inside an entry stores its data, and reports an update exactly when it touches that entry's address or data, carrying the new message |
| `MsixTable.CoherenceIffWithinEntry` | crates/greens-pci/src/msix.rs:575-645 | a table write keeps every cached message equal to the table, in all states, if and only if it stays inside one entry |
| `MsixRuns.RunQuiet` | crates/greens-pci/src/msix.rs:489-504 | in every run of signals, table, pending-array and configuration writes with Bus Master held and one word of pending bits: enabled and pending implies masked |
| `MsixRuns.ControlWriteEvaluates` | crates/greens-pci/src/msix.rs:489-504 | a configuration write evaluates exactly if it touches the control word and leaves the function unmasked; any other sends nothing and keeps every pending bit |
| `MsixRuns.RunLosesNothing` | crates/greens-pci/src/msix.rs:685-702 | a pending vector stays pending until a message for it leaves, in every run and for any array |
| `MsixRuns.NoLostInterrupt` | crates/greens-pci/src/msix.rs:399-451 | after an accepted signal and any continuation: if MSI-X is enabled and the vector unmasked at the end, a message for it has left since the signal |
| `MsixRuns.SentIsDue` | crates/greens-pci/src/msi.rs:70-94 | every message sent in a step is for a vector that was pending or is being signalled, enabled and unmasked, with that entry's current address and data |
| `MsixLedger.LedgerBalances` | crates/greens-pci/src/msix.rs:685-702 | in every run, any array, Bus Master or not: messages sent plus still pending equals what it was plus the accepted signals that found the bit clear |
| `MsixLedger.QuietIffOneWord` | crates/greens-pci/src/msix.rs:655-702 | from a fresh function, all runs leave only masked vectors pending if and only if the table has at most 64 vectors or the array at most one word |
| `MsiCore.NextPendingVector` | crates/greens-pci/src/msi.rs:568-592 | the least pending implemented vector not below `since`, none if there is none, also when `since` reaches 32 |
| `MsiEvaluation.MsiGeneratesIff` | crates/greens-pci/src/msi.rs:70-94 | a message leaves if and only if Bus Master and MSI Enable are set, the capability has per-vector masking and the vector is implemented and unmasked; without masking the answer is NotSupported |
| `MsiEvaluation.MsiEvaluateExact` | crates/greens-pci/src/msi.rs:594-610 | for every mask, pending and vector-count setting: leaving vectors sent once each in ascending order, exactly they lose their bit, nothing else in the space moves |
| `MsiEvaluation.MsiClosed` | crates/greens-pci/src/msi.rs:70-94 | disabled, not bus master or without per-vector masking, an evaluation changes nothing |
| `MsiEvaluation.NothingLost` | crates/greens-pci/src/msi.rs:594-610 | sent count plus remaining count equals the pending count before |
| `InterruptObjects.MsiHandler.SetPendingBit` | crates/greens-pci/src/msi.rs:415-442 | over the register array: exactly the pending bit of the vector, or an error and no change |
| `InterruptObjects.MsiHandler.TryGenerateMessage` | crates/greens-pci/src/msi.rs:70-94 | over the register array: a message leaves exactly under the conditions above |
| `InterruptObjects.MsiHandler.EvaluatePendingInterrupts` | crates/greens-pci/src/msi.rs:594-610 | the while loop over the register array terminates, sends exactly the leaving vectors in ascending order and clears exactly their bits |
| `MsiConfig.StoredIsReady` | crates/greens-pci/src/msi.rs:225-275 | every space that holds the MSI capability has its layout bits, writable bits and aligned address, whatever the guest wrote |
| `MsiConfig.StoredWritable` | crates/greens-pci/src/msi.rs:239-275 | the guest can write exactly MSI Enable, Multiple Message Enable, the address from bit 2 up, the data and, with masking, mask and pending bits |
| `MsiConfig.ReadyFrame` | crates/greens-pci/src/msi.rs:239-335 | guest and handler writes keep all of that |
| `MsiConfig.MsiOnWriteFrame` | crates/greens-pci/src/msi.rs:493-552 | the handler's own stores obey the writable bits |
| `MsiConfig.EnableAlwaysLegal` | crates/greens-pci/src/msi.rs:504-527 | the control fix-up leaves a legal count not above the capable one; a legal count is kept, an illegal one becomes one vector |
| `MsiConfig.DataEncoding` | crates/greens-pci/src/msi.rs:365-381 | below the enabled count the message data keeps the guest's upper bits and carries the vector in the low bits |
| `MsiConfig.MessageEncoding` | crates/greens-pci/src/msi.rs:444-466 | messages are 4-byte aligned, share their address, and distinct vectors below the enabled count give distinct data |
| `MsiConfig.ProgrammedAddress` | crates/greens-pci/src/msi.rs:444-466 | a written address register is the message address, rounded down to a dword, below the upper half of a 64-bit capability |
| `MsiConfig.ReportsIff` | crates/greens-pci/src/msi.rs:538-547 | the handler reports exactly the writes that touch an address or data byte, with the message of vector 0 as it now is |
| `MsiConfig.AddressReported` | crates/greens-pci/src/msi.rs:538-547 | a guest write of the address register reports the message with the new address |
| `MsiConfig.DataReported` | crates/greens-pci/src/msi.rs:538-547 | a guest write of the data register reports the message with the new data |
| `MsiRuns.WriteMeans` | crates/greens-pci/src/msi.rs:493-552 | a configuration write amounts to the store, the control fix-up and, exactly when it touches the masks or leaves MSI enabled by a control write, one exact evaluation |
| `MsiRuns.RunQuiet` | crates/greens-pci/src/msi.rs:493-552 | in every run of signals and configuration writes, Bus Master held and the pending dword left alone: enabled, implemented and pending implies masked |
| `MsiRuns.LedgerBalances` | crates/greens-pci/src/msi.rs:594-610 | in every such run, for every implemented vector: messages sent plus still pending equals what it was plus the accepted signals that found the bit clear |
| `MsiRuns.EnableStaysLegal` | crates/greens-pci/src/msi.rs:504-527 | the enabled count is legal after every control write and stays legal through every other step |
| `Intx.RunKeeps` | crates/greens-pci/src/intx.rs:106-166 | from a synchronised state every run of signals, ISR reads and configuration writes stays synchronised, so the line follows status and disable bits |
| `Intx.AgreementIffSynchronised` | crates/greens-pci/src/intx.rs:139-166 | the line is high exactly when status is set and disable clear in all states of all runs if and only if the run starts synchronised (cached flag = disabled and asserted) |
| `Intx.BuildIsNotSynchronised` | crates/greens-pci/src/intx.rs:58-66 | the state `build` leaves behind is not: some run from it ends with a wrong line level |
| `Intx.SignalReachesLine` | crates/greens-pci/src/interrupt.rs:324-339 | a signal taken while messages are off and INTx not disabled sets status and line; any other changes nothing; an ISR read is a signal low |
| `Intx.HeldBackIsRaised` | crates/greens-pci/src/intx.rs:139-166 | clearing Interrupt Disable raises the line for an interrupt that was held back |
| `InterruptObjects.IntxHandler.SignalIntx` | crates/greens-pci/src/intx.rs:106-137 | over the register array: the status bit takes the level, and a synchronised, enabled line takes it too and stays synchronised |
| `InterruptObjects.IntxHandler.GuestWrites` | crates/greens-pci/src/intx.rs:139-166 | a guest write and the handler after it keep a synchronised line equal to status and not disabled |
| `Routing.FindBarAndOffset` | crates/greens-pci/src/function.rs:453-490 | the loop returns the lowest-index decoded BAR of the right kind that contains the whole access, with offset + size within it, and none exactly when there is none |
| `Routing.InRangeRoutes` | crates/greens-pci/src/function.rs:453-490 | with disjoint BARs an in-range access reaches its BAR at its offset if and only if the BAR's end does not wrap past 2^64 |
| `Routing.NarrowBarsRoute` | crates/greens-pci/src/function.rs:453-490 | in every reachable space 32-bit and I/O BARs never wrap, so routing to them is exact |
| `Routing.PortsReachLow` | crates/greens-pci/src/function.rs:69-99 | a place in an I/O BAR is reached by some 16-bit port if and only if it lies in the first 64 KiB |
| `Routing.DispatchMeans` | crates/greens-pci/src/bar_region.rs:132-174 | with disjoint regions first-match dispatch finds the one region containing the access, or none |
| `Routing.OrderIrrelevant` | crates/greens-pci/src/bar_region.rs:24-33 | the order in which disjoint regions are asked does not matter |
| `Routing.VirtioRegionsDisjoint` | crates/greens-pci-virtio/src/pci.rs:223-255 | the regions of the virtio function are pairwise disjoint and inside the BAR |
| `Window.ResolvesToSelection` | crates/greens-pci-virtio/src/pci_cfg_cap.rs:83-135 | a window on a decoded BAR resolves to the selected BAR and offset if and only if it lies inside the BAR, the BAR does not wrap and an I/O access starts at a 16-bit port |
| `Window.StoredWindow` | crates/greens-pci-virtio/src/pci_cfg_cap.rs:60-72 | the registers of a stored window capability can all be driven by the guest |
| `Window.ProgrammedWindow` | crates/greens-pci-virtio/src/pci_cfg_cap.rs:192-215 | after guest writes of byte b, dword f and dword n to the BAR, offset and length registers the window resolves to BAR b at offset f if and only if f + n is within that BAR, which does not wrap |
| `Window.WindowReadRefines` | crates/greens-pci-virtio/src/pci_cfg_cap.rs:83-135 | having written b, f and n, reading the data register is `read_bar` of n bytes at BAR b, offset f: same data and effects, unread bytes 0xFF, nothing else in the space changed |
| `Window.WindowWriteRefines` | crates/greens-pci-virtio/src/pci_cfg_cap.rs:137-181 | having written b, f and n, writing a dword to the data register is `write_bar` of its first n bytes at BAR b, offset f |
| `Window.ResolvesToNeighbour` | crates/greens-pci-virtio/src/pci_cfg_cap.rs:107-118 | the window goes by address: an offset past the selected BAR that lands in another decoded BAR accesses that one |
| `Window.BadSelectionIsInert` | crates/greens-pci-virtio/src/pci_cfg_cap.rs:192-232 | bad BAR number, unmapped BAR, length 0 or above 4: reads show all ones, writes do nothing, no BAR is accessed |
| `Window.OnlyDataBytes` | crates/greens-pci-virtio/src/pci_cfg_cap.rs:183-189 | an access concerns the window if and only if it touches one of the four data bytes; any other causes no BAR access |
| `Notify.RunKeeps` | crates/greens-pci-virtio/src/pci_notify_cfg.rs:145-171 | for a BAR that is not 64-bit with a writable low half, every run of configuration writes keeps the stored notification base equal to BAR address plus region offset whenever the BAR is decoded |
| `Notify.CoherenceIffPrompt` | crates/greens-pci/src/configuration_space.rs:305-330 | that holds in all runs if and only if the BAR is such a one; otherwise rewriting the low half last leaves the stored base stale |
| `HeaderRuns.ReachableCoherence` | crates/greens-pci/src/configuration_space.rs:305-330 | the same for every reachable function, with no assumption on what the guest can write |
| `NotifyRouting.DoorbellArrives` | crates/greens-pci-virtio/src/pci_notify_cfg.rs:192-203 | a guest write to the address computed for a queue is routed to the notification BAR and, among any disjoint regions asked, dispatched to the notification region at multiplier times the queue number |
| `NotifyRouting.DoorbellIff` | crates/greens-pci-virtio/src/pci_notify_cfg.rs:192-203 | a queue has an address if and only if its offset lies inside the region |
| `NotifyRouting.DoorbellsDistinct` | crates/greens-pci-virtio/src/pci_notify_cfg.rs:192-203 | different queues have different addresses unless the multiplier is zero |
| `WholeFunction.OneCapability` | crates/greens-pci/src/interrupt.rs:348-374 | an accepted write that touches one capability's data misses every other capability |
| `WholeFunction.MsiLocal` | crates/greens-pci/src/msi.rs:493-552 | the MSI handler's stores stay inside its own capability |
| `WholeFunction.EarlyReturnsLoseNothing` | crates/greens-pci/src/function.rs:272-314 | an accepted write gives rise to at most one event, `write_config` returns that event, and its state is the one all handlers would have produced; MSI's return never hides MSI-X handling |
| `FunctionObject.PciFunction.WriteConfig` | crates/greens-pci/src/function.rs:272-314 | over the shared register arrays and the MSI-X arrays: returning at the first event leaves the objects as running every handler would and returns the only event; a rejected write changes nothing |
| `FunctionRuns.StepKeeps` | crates/greens-pci/src/interrupt.rs:302-374 | with Bus Master set each single action, MSI-X before MSI before INTx, keeps list, BARs, quiet MSI and MSI-X and both device copies |
| `FunctionRuns.IdleStep` | crates/greens-pci/src/msi.rs:70-94 | before Bus Master is set no action makes anything pending, and all of that is kept |
| `FunctionRuns.RunKeeps` | crates/greens-pci/src/function.rs:251-383 | in every run of configuration writes, table writes, message and line signals and ISR reads in which Bus Master, once set, stays set: list and BARs intact, nothing deliverable held back by MSI or MSI-X, message and notification copies right |
| `FunctionSignals.MsixSignalMeans` | crates/greens-pci/src/interrupt.rs:324-338 | with MSI-X enabled and Bus Master set, whether or not MSI is on, a signal adds exactly one message for an unmasked vector, makes a masked one pending, and moves nothing else |
| `FunctionSignals.MsiSignalMeans` | crates/greens-pci/src/interrupt.rs:324-338 | with MSI-X off and MSI on, MSI's log grows by that vector's message exactly under the conditions of `MsiGeneratesIff`, and a masked vector becomes pending |
| `FunctionSignals.NoMessages` | crates/greens-pci/src/function.rs:251-258 | with both off a message signal changes nothing |
| `FunctionSignals.LineSignalMeans` | crates/greens-pci/src/interrupt.rs:324-338 | a line signal or ISR read sets status and line when messages are off and INTx enabled, and otherwise changes nothing |
| `FunctionSignals.TableWriteMeans` | crates/greens-pci/src/function.rs:348-367 | a table write stores its bytes, and the device's message map takes the entry's new message exactly if address or data is touched |
| `FunctionSignals.ConfigWriteMeans` | crates/greens-pci/src/function.rs:272-314 | an accepted configuration write is the masked store in every byte outside the MSI capability; a rejected one changes nothing |
| `FunctionSignals.MsixLedger` | crates/greens-pci/src/function.rs:251-383 | over every run of a whole function MSI-X messages sent plus pending grow by exactly the fresh signals its gates take |
| `FunctionSignals.NoLostMsix` | crates/greens-pci/src/function.rs:251-383 | a signal MSI-X takes anywhere in a run of a whole function has produced a message by any later state in which MSI-X is enabled and the vector unmasked |
| `FunctionSignals.MsiLedger` | crates/greens-pci/src/function.rs:251-383 | the ledger of MSI over every run of a whole function |
| `FunctionSignals.NoLostMsi` | crates/greens-pci/src/function.rs:251-383 | the same for MSI with per-vector masking |
| `FunctionLine.LineFollows` | crates/greens-pci/src/interrupt.rs:302-374 | from a synchronised state the line of the whole function follows status and disable bits in every run, with no condition on what the driver does |
| `FunctionStart.SetUpRun` | crates/greens-pci/src/function.rs:391-451 | after any run of set-up calls Command is clear and every capability holds exactly the bytes it was added with |
| `FunctionStart.SetUpFunction` | crates/greens-pci/src/function.rs:251-383 | any function the set-up calls build, whatever its header, BARs and capabilities and with the INTx flag as `build` leaves it, satisfies the invariant all runs keep |
| `FunctionStart.VirtioFunction` | crates/greens-pci-virtio/src/pci.rs:207-270 | in particular the virtio function: BAR 0 placed, notification capability at 0x70, MSI-X at 0x98, and MSI, if added, at 0xA4 |
| `FunctionRuns.NoticedInfo` | crates/greens-pci-virtio/src/pci.rs:167-182 | what the device is told is what the BAR and space-bit checks alone would tell it |
| `CommonCfg.SelectBringsInStep` | crates/greens-pci-virtio/src/pci_common_cfg.rs:258-260 | a queue-select write makes shadow and device agree on the selected queue, from any state |
| `CommonCfg.FieldMeans` | crates/greens-pci-virtio/src/pci_common_cfg.rs:261-294 | despite padding and shadow a queue-field write sets the field to the data written |
| `CommonCfg.RunProgramsSelected` | crates/greens-pci-virtio/src/pci_common_cfg.rs:107-128 | as long as no access reaches the select register, a whole run of reads and writes, queue resets included, programs exactly the selected queue, field by field, and no other |
| `CommonCfg.StepLatch` | crates/greens-pci-virtio/src/pci_common_cfg.rs:107-128 | how every access changes the shadow of the reset register: a write to the register itself is dropped, a wide write in front of it gets through |
| `CommonCfg.ResetIffArmed` | crates/greens-pci-virtio/src/pci_common_cfg.rs:295-300 | a reset write resets the selected queue if and only if the shadow holds 1 already, whatever it writes |
| `CommonCfg.NarrowNeverResets` | crates/greens-pci-virtio/src/pci_common_cfg.rs:107-128 | so in runs of writes that end at their own register no reset write ever resets a queue |
| `CommonCfg.KeepsSelectIff` | crates/greens-pci-virtio/src/pci_common_cfg.rs:107-128 | a write keeps the selection in all states if and only if it does not start at offsets 15 to 23 |
| `CommonCfg.VectorWriteRedirects` | crates/greens-pci-virtio/src/pci_common_cfg.rs:256 | a configuration-vector write clears the shadow select but not the device's, and the next queue-field write goes to queue 0 |
| `CommonCfg.FeaturePaging` | crates/greens-pci-virtio/src/pci_common_cfg.rs:252-255 | driver features go to the page selected before, with the value written |
| `CommonCfg.CallsCarryData` | crates/greens-pci-virtio/src/pci_common_cfg.rs:256-257 | vector and status writes reach the device with the value written |
| `CommonCfg.HalvesAreWhole` | crates/greens-pci-virtio/src/pci_common_cfg.rs:407-415 | a ring address set by halves, in either order, is the address set at once |
| `CommonCfg.AddressRoundTrip` | crates/greens-pci-virtio/src/pci_common_cfg.rs:220-231 | on the device too, and an eight-byte read gives back exactly the bytes written |
| `CommonCfg.SizeReadBack` | crates/greens-pci-virtio/src/pci_common_cfg.rs:205-207 | the queue size written is the size read |
| `CommonCfg.EnableReadBack` | crates/greens-pci-virtio/src/pci_common_cfg.rs:212-215 | an enabled queue reads 1, one that is not ready reads 0 |
| `CommonCfg.SelectReadBack` | crates/greens-pci-virtio/src/pci_common_cfg.rs:204-219 | the selected number reads back and is the notify offset of an existing queue, 0 without one |
| `CommonCfg.NoQueueReadsZero` | crates/greens-pci-virtio/src/pci_common_cfg.rs:390-395 | without a selected queue every queue field reads 0 |
| `CommonCfg.ShownReadBack` | crates/greens-pci-virtio/src/pci_common_cfg.rs:186-203 | the other registers show what the device answers |
| `CommonCfg.NoRegisterIsZero` | crates/greens-pci-virtio/src/pci_common_cfg.rs:177-184 | an access where no register starts reads zeros, leaves zeros behind and does not reach the device |
| `CommonCfgObject.CommonCfgRegion.WriteBar` | crates/greens-pci-virtio/src/pci_common_cfg.rs:107-128 | the in-place write pads, stores and acts as the model does; more than eight bytes are refused with no change |
| `CommonCfgObject.CommonCfgRegion.ProcessRegisterWrite` | crates/greens-pci-virtio/src/pci_common_cfg.rs:243-314 | the in-place register action is the model's |
| `CommonCfgObject.CommonCfgRegion.ReadBar` | crates/greens-pci-virtio/src/pci_common_cfg.rs:96-106 | the in-place read refreshes the shadow from the device and returns the model's bytes |
| `CommonCfgObject.CommonCfgRegion.SetConfigDataInvalid` | crates/greens-pci-virtio/src/pci_common_cfg.rs:382-388 | the byte loop zeroes exactly the part of the range inside the block |

## Left out

- What type-1 and multifunction headers change besides the number of BARs, the 4096-byte `pcie` space and hand-made cyclic capability chains.
- `update_capability`, and the constructors and argument checks of the individual virtio and MSI-X capabilities; the MSI capability is modelled.
- Big-endian hosts: all fields are little-endian.
- Bus Master cleared again during a run and guest writes to MSI's pending dword: neither triggers an evaluation, so both lie outside the run theorems that speak of held-back interrupts. The ledger theorem of MSI-X covers Bus Master changes.
- MSI vectors of 32 and above, for which the source's shift overflows.
- The INTx line read from the Interrupt Line register, and functions without INTx: the line is fixed and present.
- One interleaved message log: MSI and MSI-X messages of a function are kept in separate logs.
- Reading configuration space and the MSI-X table, plain copies of bytes; the device-configuration and ISR regions beyond their INTx effect; `queue_notify`.
- QueueNotifyCfgData, QueueReset and the admin-queue registers on read, which the source does not implement and which the model answers with an error.
- The device behind the common configuration: a queue is a record of size, ready flag and three addresses with half updates; the alignment and range checks of the queue library are not part of this model. Answers for registers that are not queue fields are arbitrary.
- The access window and the notification handler in place: both are modelled on values, so update in place of the window's data bytes is not captured.
- Overflow of the 64-bit address sum in the window and in `notification_gpa`: sums are unbounded.
- Error texts, accessor and register-enum macros, `access_data_window`.
- The seL4, Linux and vhost crates.
