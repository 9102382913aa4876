# RamRyder: the host-side memory-channel allocator

RamRyder hands memory of the host's DAX devices to virtual machines, channel by channel. A server owns the
devices, cut into segments, and a table of sixteen VMs; a command-line client plans requests, asks the server,
and undoes what it started when a step fails. The same fact is kept in several places: a segment array, a counter of
used segments, a linked list of devices per VM, a VM count, a table of guest agents, and the texts the client reads.
This project models that server and that client and proves that all these stay in agreement, in every run.

Three views of the server are tied together:

* **As it is kept** (`MemoryPool`, `TailQueue`, `VmInstances`, `GuestAgents`, `VmManager`, `ResourceManager`,
  `ServerReports`): classes with arrays, flags, counters and a doubly linked queue whose back pointers name link cells, updated in
  place. Every method says that its new state is that of the second view.
* **As a value** (`Segments`, `PoolModel`, `VmModel`): one function per operation, with the program's branches.
* **As a ledger** (`Ledger`): a map from VM to the grants it holds, no segment arrays, no slots, no counters. `Refinement` proves
  that each command is exactly the ledger's step and keeps the invariant; `Runs`, `Transactions` and `Shutdown` draw the
  consequences over whole runs: exact ownership, exact release, ids never reused, roll-back, a drained shutdown.

The client is in `Planner` (splitting, matching, attaching, choosing an id), `CpuList` (the three readings of a CPU list, compared in
`CpuReadings`; `CpuGrammar` says which texts are lists at all) and `Client` (reading the server's texts, printed in `Reports`). `DumpRoundTrip`
and `UsageRoundTrip` prove that the client reads what the server holds. The client skips most fields; `DumpReader`, `UsageReader` and `ReplyReader`
are readers of the whole texts, written apart from the printing, and prove that every field printed is the one meant. `CutTexts` says what the
client still reads when a text overflows the server's buffer; `EndToEnd` puts client and
server together, and `Witnesses` shows that what these results ask for can be met. `Lists`, `Sorting`, `Text`, `Lines`, `Fields`,
`Counting` and `Wrappers` are shared helpers.

The invariant of a reachable state is `Refinement.Inv`: devices are named by their position and sized in segments; the count is the
number of initialised slots, whose ids are distinct; an agent is live exactly when its VM runs; every grant's range is inside its device and
marked with its VM, grants are disjoint, every marked segment belongs to a grant; ids along a list increase and stay below the next one.

Some promises are false of the code as it stands. Each is proved with the exact condition under which it holds and with an input on
which it fails.

* *The readings of a CPU list agree.* On every list the client accepts (ASCII text whose blanks are those of C's `isspace`, numbers inside a
  C int), the server's traversal of the set it stored is the client's list if and only if `CpuReadings.StoredAgrees`: each part stored whole
  is read alike, the last part kept of a list of 256 characters or more visits what the whole part means, and only blank parts are lost.
  A part is read alike when the server's scan reaches the dash and reads the right number whole, or else reads the left number whole
  and that is all there is; an underscore, which Python's `int` skips, and a blank before the dash stop the scan. The lists on which they differ are
  "a -b" (`BlankCanDiffer`), "a_b" (`UnderscoreCanDiffer`) and 254 blanks before "10" (`LengthCanDiffer`), of which the server keeps "1".
* *A release frees the range it is given.* It does if and only if sizes are aligned, the node exists and the VM holds every segment of
  the range (`PoolModel.ReleaseSucceedsExactly`), which is so for every range on a VM's list (`Runs.FreeIsExact`). With the first of two segments held
  and the second not, it fails and the first is free (`PoolModel.ReleaseCanStopHalfway`).
* *What the client plans is granted.* It is if and only if each part is whole segments with a free window of that length on its node, and each device
  is plugged (`EndToEnd.PlannedAttachSucceeds`). Two free segments that are not adjacent are planned as room for two and refused
  (`EndToEnd.PlanCanBeRefused`).
* *Sizes must be non-zero,* says the message of the alignment check; zero passes it (`PoolModel.ZeroIsAligned`), and only the RPC guard
  keeps it out.

What the outside world decides is a parameter: whether the guest agent answers, the descriptors that opening a performance event gives, whether
the hypervisor plugs a device, and the contents of the configuration file once parsed.

## Model

| member | source | states |
|---|---|---|
| Segments.FirstFitIsLeast | src/memory_pool.c:46-66 | the search result is the least start of a free window of the length asked; -1 exactly when there is no such window |
| Segments.SkipPastTaken | src/memory_pool.c:51-62 | resuming just past a taken segment skips no window: every start up to that segment is blocked by it |
| MemoryPool.DaxDevice.FindFreeSegments | src/memory_pool.c:46-66 | the skip-ahead loop returns what trying every start would, and looks at no more segments than the device has |
| MemoryPool.FreeSpaceBoundsWindows | src/memory_pool.c:76-86 | a free window is no longer than total minus used, so going on after "not enough segments" is harmless: the search must fail |
| MemoryPool.DaxDevice.AllocateSegments | src/memory_pool.c:68-95 | on success the least fitting window and nothing else becomes the VM's; -1 leaves the array as it was; the used counter is the number of taken segments throughout |
| Segments.HeldPrefixStops | src/memory_pool.c:143-157 | the prefix a release frees is all the VM's, and it ends at the first segment that is not |
| Segments.HeldIsWhole | src/memory_pool.c:143-160 | that prefix is the whole range exactly when the VM holds every segment of it |
| Segments.CountReleased | src/memory_pool.c:143-153 | clearing that prefix lowers the number of taken segments by exactly its length |
| MemoryPool.DaxDevice.ReleaseSegments | src/memory_pool.c:140-161 | clears exactly the prefix the VM holds, lowers the counter by its length, succeeds exactly when the prefix is the whole range |
| MemoryPool.DaxDevice.ReleaseOwned | src/memory_pool.c:210-216 | clears the VM's segments and no other; the counter still equals the number of taken segments |
| MemoryPool.DaxDevice.Reset | src/memory_pool.c:293-299 | a named device with all segments free, owner -1, and none counted |
| MemoryPool.MemoryPool.constructor | src/memory_pool.c:281-303 | the configured pool is well formed, node ids are positions, every segment is free |
| MemoryPool.MemoryPool.AllocateSegments | src/memory_pool.c:97-138 | checks alignment, finds the node, allocates; the request records node, path, and megabytes, all computed inside a C int; the rest of the pool is untouched |
| MemoryPool.MemoryPool.ReleaseSegments | src/memory_pool.c:163-202 | the release of a megabyte range, refused without a trace when misaligned or on an unknown node |
| MemoryPool.MemoryPool.ReleaseVmMemory | src/memory_pool.c:204-218 | on every device, all of the VM's segments and only they become free |
| PoolModel.AllocationIsExact | src/memory_pool.c:121-132 | dividing the offset and size handed out by the segment size gives back exactly the start and count taken; offset plus size stays inside the device |
| PoolModel.AllocateThenRelease | src/memory_pool.c:97-202 | releasing what an allocation handed out restores the pool exactly, and succeeds |
| PoolModel.AllocateSucceedsExactly | src/memory_pool.c:97-126 | an allocation is granted if and only if the size is whole segments, the node exists and it has a free window of that length |
| PoolModel.ReleaseSucceedsExactly | src/memory_pool.c:163-202 | a release succeeds if and only if both numbers are aligned, the node exists and the VM holds every segment of the range |
| PoolModel.ReleaseCanStopHalfway | src/memory_pool.c:143-157 | a range of two segments, the first held and the second not: the first is freed and the call fails |
| TailQueue.DeviceQueue.Init | src/util_queue.h:21-24 | an empty queue whose last cell is the head's first cell |
| TailQueue.DeviceQueue.InsertTail | src/util_queue.h:26-31 | the member sequence grows by the element at its end; every back pointer and the last cell again name the right link cell |
| TailQueue.DeviceQueue.Remove | src/util_queue.h:33-40 | exactly the element at its position leaves the sequence, wherever it stands, first, middle, last or only |
| TailQueue.DeviceQueue.Find | src/vm_manager.c:394-399 | walking the links finds the first member with the id, null exactly when there is none |
| TailQueue.DeviceQueue.Walk | src/util_queue.h:42-43 | the walk visits every member once, in order |
| GuestAgents.GuestAgentTable.Init | src/guest_agent.c:36-67 | idempotent; a failed connect adds no entry and nothing to the count; a success adds one entry, with the VM's socket and the descriptor obtained, and one to the count; other entries stay |
| GuestAgents.GuestAgentTable.Cleanup | src/guest_agent.c:69-77 | removes the entry if it is live, and one from the count |
| CpuList.ForEachCore | src/vm_manager.c:86-111 | the callbacks made, in order, for any core set: ranges, single cores, tokens that scan as nothing |
| CpuList.ExpandCpuList | admin/ramryder_cli:73-88 | the CPUs part by part in order, or the error of the first bad part |
| CpuList.ParseCpuSet | admin/ramryder_cli:53-70 | strictly increasing, exactly the CPUs of the list, an error when the list is bad or empty |
| CpuGrammar.AcceptedExactly | admin/ramryder_cli:53-88 | a text is a CPU list to the client if and only if it is parts separated by commas, each blank, one number, or an ascending range, with blanks and plus signs where Python allows them; the CPUs are those of the parts, in order |
| CpuReadings.TokenVisits | src/vm_manager.c:96-106 | a token with a dash and a second number visits the range, nothing when it descends; otherwise the first number alone, whatever follows |
| CpuReadings.TraversalIsPinningOrder | src/vm_manager.c:235-236 | on every list the client accepts, of any length, the server's traversal of the set it stored is the client's pinning order if and only if every part stored whole is read alike, what was kept of a cut part visits what the part means, and only blank parts are lost |
| CpuReadings.AgreeOnPart | src/vm_manager.c:96-106 | a part is read alike exactly when the scan gets the right number whole, or, stopped before the dash by a blank or an underscore, gets the left number whole and it equals the right one |
| CpuReadings.CutVisitsNoMore | src/vm_manager.c:96-106 | however a part is cut, the server visits no more cores than the client counts for the part |
| CpuReadings.BlankCanDiffer | src/vm_manager.c:96-106 | "a -b" with a below b is the whole range to the client and only a to the server |
| CpuReadings.UnderscoreCanDiffer | admin/ramryder_cli:87 | "a_b" with a above zero is a number beyond a to the client and a to the server |
| CpuReadings.LengthCanDiffer | src/vm_manager.c:235 | 254 blanks and "10" are CPU 10 to the client; the server keeps 255 characters and visits 1 |
| CpuReadings.WellFormedListAgrees | admin/ramryder_cli:73-88 | a list written from numbers and ascending ranges reads back as those, in order, to the client, and to the server when it has fewer than 256 characters |
| Sorting.ElementCount | admin/ramryder_cli:599-601 | the set of CPUs is never larger than the list, and as large exactly when nothing is repeated |
| CpuList.PinVcpus | admin/ramryder_cli:224-239 | with one vCPU per CPU of the set, pinning never runs short of CPUs, follows the list order, and uses all of it exactly when nothing is repeated |
| VmInstances.VmInstance.CountCores | src/vm_manager.c:232-236 | the core count is the number of callbacks the traversal makes |
| VmInstances.VmInstance.PerfCounterSetup | src/vm_manager.c:140-160 | the core index stays below the core count at each write and equals it at the end; each entry of each event's table holds the descriptor opened for its own core, and exactly those are open |
| VmInstances.VmInstance.PerfCounterTeardown | src/vm_manager.c:162-179 | every open descriptor is closed, once, with the value that opening it gave; none stays open |
| VmInstances.VmInstance.Conclude | src/vm_manager.c:268-276 | the VM runs with its descriptors open, or, when the agent failed, does not run and has none open |
| VmInstances.VmInstance.Occupy | src/vm_manager.c:231-239 | the slot of a new VM: cores counted, ids from zero, an empty list |
| VmInstances.VmInstance.Attach | src/vm_manager.c:367-368 | the next id and the request go to the end of the list |
| VmInstances.VmInstance.Detach | src/vm_manager.c:416-417 | exactly the device at its position leaves the list; the id counter stays |
| VmManager.VmManager.GetInstance | src/vm_manager.c:23-35 | the first initialised slot with the id, or none |
| VmManager.VmManager.Create | src/vm_manager.c:206-245 | refused when full or when the id exists; else the first free slot is occupied; the invariant is kept |
| VmManager.VmManager.Start | src/vm_manager.c:247-280 | counters set up, agent connected, running; when the agent does not connect the VM is as before; descriptors are open for exactly the VMs that run |
| VmManager.VmManager.Stop | src/vm_manager.c:308-337 | no longer running, agent gone, descriptors closed; stopping a stopped VM succeeds and changes nothing |
| VmManager.VmManager.Destroy | src/vm_manager.c:282-306 | refused while running; else the slot is free and all of the VM's segments are |
| VmManager.VmManager.AllocMem | src/vm_manager.c:339-378 | a refusal leaves list, counter and pool alone; a success takes the segments, lists the device and advances the id counter |
| VmManager.VmManager.FreeMem | src/vm_manager.c:380-420 | the listed device's range is free and its record gone; other ids are refused without a trace |
| VmManager.VmManager.GetMem | src/vm_manager.c:422-447 | the request recorded under the id on the VM's list, or nothing (`Runs.GetMemIsListed`); the state does not change |
| Runs.GetMemIsListed | src/vm_manager.c:434-439 | in every reachable state the answer is a request if and only if the VM's list has a device with exactly this id and request |
| Refinement.GetMemAgrees | src/vm_manager.c:422-447 | the answer is the ledger's grant under the id, its node, path, start and length in megabytes, and nothing exactly when there is no such grant |
| Refinement.SlotForCreate | src/vm_manager.c:221-230 | a count below 16 means a free slot that is not running: the abort after the search is unreachable |
| Refinement.AgentTableHasRoom | src/guest_agent.c:44-47 | when a stopped VM is started, the agent table is never full: the "too many agents" branch is never taken |
| Refinement.Lookup | src/vm_manager.c:194-204 | a VM is in the ledger exactly when lookup finds it, with its slot's grants; the number of ledger entries is the manager's count |
| Refinement.CreateAgrees | src/vm_manager.c:206-245 | create keeps the invariant and is the ledger's create |
| Refinement.StartAgrees | src/vm_manager.c:247-280 | start keeps the invariant and is the ledger's start, whether or not the agent connects |
| Refinement.StopAgrees | src/vm_manager.c:308-337 | stop keeps the invariant and is the ledger's stop |
| Refinement.DestroyAgrees | src/vm_manager.c:282-306 | destroy keeps the invariant and removes exactly the VM's entry |
| Refinement.AllocAgrees | src/vm_manager.c:339-378 | alloc keeps the invariant; refused or granted, at the place and with the id the ledger alone determines |
| Refinement.FreeAgrees | src/vm_manager.c:380-420 | free keeps the invariant and takes exactly the named grant off the ledger; it fails exactly when there is no such grant |
| Refinement.StepAgrees | src/resource_manager.c:110-332 | every command, failing ones included, keeps the invariant and is exactly the ledger's step, reply included |
| Runs.InitialOk | src/memory_pool.c:291-300 | the freshly configured server satisfies the invariant with an empty ledger |
| Runs.RunRefines | src/resource_manager.c:380-440 | over any run of commands every reply and the final state are what the ledger alone would give; core counts stay those of the stored core sets |
| Runs.StepKeepsVms | src/vm_manager.c:206-447 | a VM there before and after any command keeps its slot, id, core set and core count |
| Runs.TurnedAwayExactly | src/resource_manager.c:110-332 | a command is answered "invalid" exactly when a number in it is negative or a size is not positive, and then changes nothing |
| Runs.OwnershipIsExact | src/vm_manager.c:339-420 | in every reachable state a segment is marked as a VM's if and only if that initialised VM lists a device covering it; no segment is covered twice; free segments have owner -1 |
| Runs.SameGrantsSamePool | src/memory_pool.c:68-218 | two reachable states with the same grants have the same segment arrays: nothing else is remembered there |
| Runs.FreeClearsRange | src/vm_manager.c:406-413 | the release inside a free of a listed device never takes the partial-failure branch and clears exactly the recorded range |
| Runs.FreeIsExact | src/vm_manager.c:380-420 | freeing a listed device succeeds, clears its range, removes its record, after which the id is unknown, and changes nothing else |
| Runs.ListedIdsIncrease | src/vm_manager.c:37-48 | ids along a list strictly increase and stay below the counter, so the first match is the only one |
| Runs.IdsAreConsecutive | src/vm_manager.c:37-48 | between create and destroy a VM's devices get consecutive ids, whatever is freed or refused in between |
| Runs.DeviceIdsNeverReused | src/vm_manager.c:415 | along any run of the server the ids handed out go on from the counter, above all ids listed |
| Transactions.AllocStep | src/vm_manager.c:339-378 | one allocation in any reachable state: refused without a trace, or one more device at the end of that VM's list only |
| Transactions.UndoRestores | admin/ramryder_cli:752-758 | freeing the attempt's devices one after the other puts the list back |
| Transactions.AttachIsAtomic | admin/ramryder_cli:729-758 | whichever step fails, segments, lists, agents and counts are as before and only the VM's id counter moved; when all succeed, one new device per part, in order |
| Transactions.AttachSucceedsExactly | admin/ramryder_cli:730-751 | an attach on different nodes succeeds if and only if the VM exists, every part is whole segments with a free window on its node, and every device is plugged |
| Transactions.AllocAllGrants | admin/ramryder_cli:479-493 | allocating part after part lists one device for each of the first parts, in order, and stops at the first part the server refuses in the state reached |
| Transactions.AllGrantedExactly | admin/ramryder_cli:479-493 | on different nodes no part is refused if and only if each is whole segments with a free window on its node |
| Transactions.GivingUpRestores | admin/ramryder_cli:678-683 | a VM created and given up again leaves segments, ledger, agents and count as they were |
| Shutdown.ShutdownDrains | src/resource_manager.c:444-466 | from any reachable state the two sweeps, which change the table they walk, end with no VM, no running VM, no live agent, every segment free and none counted |
| ResourceManager.Server.Handle | src/resource_manager.c:400-428 | the handlers, guards included, do to the heap exactly what the command does to the state, and keep it valid |
| ResourceManager.Server.Serve | src/resource_manager.c:380-440 | serving commands one after the other is the run |
| ResourceManager.Server.StopRunning | src/vm_manager.c:68-84 | the sweep over the table, stopping by id, is the stop-all of the state |
| ResourceManager.Server.DestroyEach | src/vm_manager.c:50-66 | the sweep over the table, destroying by id, is the destroy-all of the state |
| ResourceManager.Server.HandleSignal | src/resource_manager.c:454-466 | after the signal nothing is left: no VM, no agent, no open descriptor, every segment free |
| ResourceManager.Server.HandleMultiAttach | admin/ramryder_cli:729-758 | the loop with its roll-back does to the server exactly what the attach transaction says |
| Planner.SplitIsFair | admin/ramryder_cli:91-97 | the parts add up to the request, earlier parts are larger by at most one, and each is at least one when the request is |
| Planner.SplitMemory | admin/ramryder_cli:91-97 | the loop gives that split |
| Planner.AnyPlanFits | admin/ramryder_cli:355-362 | exchange argument: if any assignment exists, each size in decreasing order fits the node of the same rank by free space |
| Planner.GreedyIsComplete | admin/ramryder_cli:338-376 | for distinct nodes the answer is an assignment of all sizes to different nodes with room, in increasing node order; an error means no such assignment exists |
| Planner.RefusalNames | admin/ramryder_cli:346-371 | an error names more parts than nodes, with both numbers, or one of the sizes and the room of a node, which is smaller |
| Planner.ChooseAllocationsForTier | admin/ramryder_cli:338-376 | the nested loops with their used-id set find that answer, and report the largest room left in the error |
| Planner.CuttingLosesNothing | admin/ramryder_cli:429-430 | keeping only as many of the roomiest nodes as there are parts does not change the answer |
| Planner.AttachPlanIsExact | admin/ramryder_cli:400-436 | an attach on a tier is planned exactly when it can be served by the eligible nodes; the whole request is placed, on new nodes only or on existing ones only, as asked |
| Planner.PlanPlacesBothTiers | admin/ramryder_cli:439-457 | a plan for a new VM exists exactly when both tiers can serve; its first parts, as many as channels, are the local memory, on tier 0, the rest the CXL memory, on tier 1, each half evenly, complete and in node order; no node is used twice |
| Planner.AttachPlanPlacesAll | admin/ramryder_cli:706-727 | an attach plan exists if and only if the VM has memory, something is asked, and each tier can serve what is asked of it; a first stretch is what was asked of tier 0, on tier 0, the rest that of tier 1, each on new nodes, or on all the VM's nodes of the tier when no channels are given; no node is named twice |
| Planner.UsedPrefixIsShort | admin/ramryder_cli:320-321 | if all ids below one are taken, it is at most the number of taken ids |
| Planner.SelectVmid | admin/ramryder_cli:312-322 | terminates with the least unused id, at most the number of ids in use |
| Reports.PrintAppends | src/vm_manager.c:459-461 | printing at the offset keeps the buffer a truncation of the whole text |
| ServerReports.DumpState | src/vm_manager.c:449-497 | the dump of the heap state, printed piece by piece into a buffer, is the full text cut to the buffer |
| ServerReports.GetUsage | src/memory_pool.c:323-342 | the same for the usage table, whose used column, read from the counter, is the number of taken segments |
| Lines.ReceivedLines | admin/resource_mngr_rpc.py:16-17 | stripping the reply and splitting it gives back the lines that were printed |
| Client.GetUsedVmIds | admin/ramryder_cli:139-153 | the scan returns, sorted, the ids the lines announce |
| Client.GetVmMemNodes | admin/ramryder_cli:379-397 | the scan returns, sorted and without repeats, the nodes of the device lines under the VM's own line |
| Client.GetMemPoolNodes | admin/ramryder_cli:156-180 | the nodes of the readable lines, sorted by id; no answer when there is none |
| DumpRoundTrip.IdPrefix | admin/ramryder_cli:386 | a printed id followed by a blank is a prefix of another exactly when the ids are equal: 1 is not taken for 10 |
| DumpRoundTrip.VmIdsRoundTrip | admin/ramryder_cli:139-153 | the ids read from a dump that fits are exactly the ids of the ledger |
| DumpRoundTrip.VmNodesRoundTrip | admin/ramryder_cli:379-397 | the nodes read for any id are exactly those of that VM's listed devices, none for an unknown id |
| DumpReader.DevLineReads | src/vm_manager.c:486-489 | a device's line gives back id, node, path, size, alignment and offset, each under its own name |
| DumpReader.VmLineReads | src/vm_manager.c:476-479 | a VM's line gives back id, cores, core set and id counter, whatever the core set holds |
| DumpReader.WholeDumpRoundTrip | src/vm_manager.c:449-497 | from a dump that fits, every VM is read with all that is printed of it and every device on its list, in order |
| DumpReader.SameDumpSameServer | src/vm_manager.c:449-497 | two servers on the same devices whose dumps fit and are the same text have the same VMs, the same grants and ids, and the same segment arrays |
| DumpRoundTrip.AllocReplyRoundTrip | src/resource_manager.c:126-129 | the id the client takes from the reply is the id the server gave, whatever the device's path |
| ReplyReader.ReplyRoundTrip | src/resource_manager.c:126-129 | the reply read field by field, as the hypervisor reads it, is the device's id, path, size, alignment and offset, each under its own name, for every path without a comma |
| UsageRoundTrip.UsageLineReads | src/memory_pool.c:333-337 | a padded table line reads back as node, tier, and free segments times segment size |
| UsageReader.TableRoundTrip | src/memory_pool.c:323-342 | from a table that fits, all nine columns of every device are read, each from its own column: index, path, size, segment size, used and total segments, node, tier, DAX number |
| UsageRoundTrip.NoTable | src/memory_pool.c:325-328 | of a server without devices the client reads no node |
| UsageRoundTrip.PoolRoundTrip | admin/ramryder_cli:156-180 | from a table that fits the client reads every device, in node order, with distinct ids as the planner needs them |
| EndToEnd.SelectedIdIsLegal | admin/ramryder_cli:312-322 | the id chosen from a dump is free and at most the VM count; create succeeds exactly when there is room, and then the id is a legal table index |
| EndToEnd.RoomIsNeeded | src/memory_pool.c:82-86 | the server grants an allocation only on a node where the client saw that much free memory |
| EndToEnd.RefusalIsRight | admin/ramryder_cli:346-371 | when the planner refuses, no placement of the parts on different nodes of the tier would be granted part by part |
| EndToEnd.ReplyNamesTheRange | src/resource_manager.c:119-129 | the range read from the reply to a granted allocation is exactly the segments that became the VM's, all free before |
| EndToEnd.CreatedEmpty | src/vm_manager.c:231-239 | a new VM is found under its id, stopped, with the core set given, cut to the buffer, no device and id counter zero; the pool is untouched |
| EndToEnd.CreateEndToEnd | admin/ramryder_cli:602-683 | a VM created and filled with the plan made of what was read has one device per granted part, and exactly the memory asked for if and only if each part is whole segments with a free window on its node |
| EndToEnd.AttachEndToEnd | admin/ramryder_cli:688-760 | planned on what was read, an attach either changes nothing but the id counter or gives the VM exactly the megabytes asked for more |
| EndToEnd.PlannedAttachSucceeds | admin/ramryder_cli:715-751 | what the client plans for an attach is granted in full if and only if each part is whole segments with a free window on its node, and each device is plugged |
| EndToEnd.PlanCanBeRefused | admin/ramryder_cli:338-376 | on a device whose two free segments are not adjacent, the client plans two segments and the server refuses them |
| CutTexts.ReceivedCut | src/resource_manager.c:65-70 | of a printed text, however long, the client sees every complete line and at most a part of the next one |
| CutTexts.VmIdsOfAnyDump | admin/ramryder_cli:139-153 | however long the dump, the ids on complete lines are read and are ids of VMs there are; the line that was cut adds at most one more |
| CutTexts.VmNodesOfAnyDump | admin/ramryder_cli:379-397 | however long the dump, a VM's nodes on complete lines are read and are its own; the line that was cut adds at most one more |
| CutTexts.PoolOfAnyTable | admin/ramryder_cli:156-180 | however long the usage table, the client reads the first devices exactly as they are, in order: all those on complete lines and perhaps the one on the line that was cut, never a wrong one |
| Witnesses.RequirementsCanBeMet | src/memory_pool.c:281-303 | a server with one device and no VM meets all that the round trips and the client-server results ask for |

## Left out

- Sockets, epoll, signals and the wire: commands arrive parsed, one at a time; the scanning of command text and lost replies are not modelled.
- Configuration file text: a pool starts from parsed device lines that passed the reader's checks, with no more than 4096 segments a device, which the program assumes and does not check.
- Logging, PCM bandwidth, latency metrics, their smoothing and the time-series database: foreign calls and floating point.
- The hypervisor: whether a device is plugged is an answer given to the model; the request sent carries no pool offset, and a free or a roll-back does not unplug first, so nothing is said of what a guest maps.
- The monitor thread and its race with stop, which rests on a pause of a millisecond; commands are atomic.
- VmModel.Legal: aborts are not modelled; creating with an empty core set, starting a VM whose id is 16 or more (the agent table has 16 entries), whose set has no core or a negative one, an event that cannot be opened (a negative descriptor), and a size of zero reaching the pool are requirements of the caller here.
- Failing `malloc` and the memory of destroyed lists, which the program never frees.
- VmModel.FreeMem: the device object leaves the list and the ledger; the heap model does not return its storage.
- Client.Received: the texts of the results hold core sets and paths without line breaks (table paths also without a bar), and the reply to an allocation fits the 1024 characters; longer dumps and tables are covered up to the line that was cut.
- DumpReader.WholeDumpRoundTrip: paths hold no blank, as in a configuration line; UsageReader's begin and end visibly, ReplyReader's hold no comma.
- The other replies ("success", "failed" and their reasons) and the query of one node are not modelled as text; `Reply` says which it is.
- CpuList.ForEachCore: the callbacks are collected as the list of their core numbers; numbers are unbounded where `sscanf` would overflow.
- Text.PyInt: ASCII text, with C's blanks; other scripts' digits and blanks, and the four separator characters Python also strips, are not read.
- VmInstances.VmInstance.PerfAllocate: the descriptor tables are sequences held by the slot, written in place through the field; their separate allocation and release are not modelled.
- VmInstances.VmInstance.Attach: the id counter is unbounded where the program's would wrap after two thousand million allocations.
- CpuList.PinVcpus: one vCPU thread per CPU of the set, as the launch line asks for; which threads exist is the hypervisor's answer.
- Memory sizes as text, port choice, the launch command line, shell scripts and help texts: easy or foreign.
