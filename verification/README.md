# Kata Containers, modelled and verified in Dafny

Kata Containers runs each pod in a small virtual machine. This project models the parts of it whose correctness is
hardest to see by reading, and proves what they are for:

- the **resource manager** of the Dragonball virtual machine monitor (`ResourceManager.dfy`, `Leases.dfy`, `Sessions.dfy`),
  on top of the balanced **interval tree** it keeps its pools in (`IntervalTree.dfy`): first fit, coalescing, and transactions
  over six pools with roll-back;
- the guest **address space** (`AddressSpace.dfy`): the memory layout around the MMIO hole, its static reservation on
  a fresh resource manager, and the split of pre-allocation among threads;
- **tarfs** (`Tarfs.dfy`), the kernel module that reads a tar image by blocks: device reads, name comparison,
  directory listing that can stop and resume, lookup, pages, and the checks made at mount time;
- in the guest agent: the **watcher** that mirrors mounts by scanning (`Watcher.dfy`), device **events and their
  waiters** (`Uevents.dfy`), parallel **waits for a process** (`ProcessWait.dfy`), reference-counted **sandbox
  storage** (`SandboxStorage.dfy`), chunked **file upload** (`CopyFile.dfy`), **PCI addresses** (`Pci.dfy`), and the
  rewriting of **environment and device lists** in a container spec (`DeviceSpec.dfy`).

What the source updates in place is a class or an array here, and its methods are proved against functions of the old
state; the theorems are about those functions. Concurrent code is a state machine whose steps are the critical
sections between two uses of the sandbox lock, and the theorems hold for every run. Arithmetic is unbounded, and
`u16`, `u32` and `u64` wrap-around is written out where the source can meet it.

Several properties one would expect hold only under a condition. For these there is a run or an input that shows the
failure, and the exact condition:

- Rolling back `allocate_device_resources` restores the pools just when no grant made so far ends on the last I/O port
  or the last guest memory address, or spans several KVM slots: the free checks refuse those. Which grants are made
  follows from the pools and the requests (`ResourceManagers.Grants`), so that this can be told before the call
  (`ResourceManagers.ResourceManager.AllocateDeviceResources`, `ResourceManagers.LastPortLeaks`).
- What a sequence of calls on the resource manager has lent out stays disjoint, and is given back in full by clients
  whose requests can be rolled back, as long as no list is given back twice (`Sessions.SessionAccounts`,
  `Sessions.SessionRestores`). Giving a range back again changes nothing just when nobody has it by then
  (`Sessions.GivenBackTwice`); otherwise two clients can come to share it (`Sessions.PortSharedByTwo`).
- A wait for a device event panics after its timeout just when a matching event arrives before it has the lock again
  (`Uevents.PanicsExactly`, `Uevents.PanicIsReachable`).
- A woken waiter goes by the entry its pid leads to, and is told about its own process just when that entry has its
  own end on record (`ProcessWait.WakeAnswers`). That goes wrong once a pid is used again too early: for a new process
  in the container while an older one is still waited for (`ProcessWait.ReuseMisleads`) or the reaper has waited for it
  and not yet recorded its status (`ProcessWait.LateRecordMisleads`), or for a process outside the table while the
  table has an entry under that pid. A run is free of such reuse just when at no point of it somebody could yet be told
  about another process (`ProcessWait.SafeExactly`).
- Whoever waits for a process can move on once the reaper is done with its end (`ProcessWait.ReportsWake`), unless the
  report goes to an entry of another container under the same pid. Then the waiter waits for as long as the container
  is there (`ProcessWait.MisfiledStrands`, `ProcessWait.StrandedStays`).
- A scan leaves an exact copy just when, of the paths that stayed, every directory is still one and every leaf is
  either unchanged or newer than recorded, and no newer one turned from a link into a file
  (`Mirrors.MirrorsExactly`, `Watchers.ChangeUnseen`). A second scan with no change is not always idle: dangling links
  are copied again every time (`Mirrors.RescanUpdates`, `Watchers.LinkCopiedAgain`). A scan that fails on a limit has
  recorded times of files it did not copy, and a later scan that succeeds may leave the old copies
  (`Watchers.FailureForgets`).
- A chunked upload is published by its last chunk just when a leftover temporary file is shorter than the file, or as
  long and covered by the first chunk (`CopyFile.OnTimeExactly`, `CopyFile.NeverRenamed`,
  `CopyFile.PublishedAtOnce`). It replaces the old file in one step unless its name ends in `.tmp` or another upload
  shares its temporary file (`CopyFile.AtomicPublish`, `CopyFile.WrittenInPlace`, `CopyFile.UploadsMixed`).
- A storage update loses references when a second user came first (`SandboxStorage.UpdateConserves`,
  `SandboxStorage.LateUpdateLoses`), and a failed call keeps the references it had taken
  (`SandboxStorage.AllTakenCounts`, `SandboxStorage.FailedCallKeeps`).
- The laid-out memory is what was asked for just when no size loses bits when shifted to bytes
  (`MemoryLayouts.AllBytesLaidOut`, `MemoryLayouts.LostSize`).
- The pages of a file are its contents just when its size is positive as a signed number; a larger one reads as zeros
  (`Tarfs.PagesAreTheFile`, `Tarfs.LargeFileLost`, `Tarfs.OnesReadAsZeros`).

Where comments and code disagree, the model follows the code. The comment in `process_add` announces a special case
for memory hot-add; the path it builds has a second slash for every device path the kernel sends, and so the case is
never taken (`Uevents.MemoryHotAddMeans`). The `WatcherError` messages say that counts and sizes must be below the
limits; the checks allow the limits themselves.

The laws a maintainer would rely on come from the code, its tests and its comments. PCI slot and function numbers
follow section 3.2.2.3 of the PCI Local Bus Specification 3.0; device nodes and cgroup rules are those of the
"Devices" and "Allowed Device list" sections of the OCI runtime specification's Linux configuration.

## Model

| member | source | states |
|---|---|---|
| Ranges.AlignToIsLowest | src/dragonball/src/dbs_allocator/src/interval_tree.rs:151-166 | `align_to` keeps the end and moves the start to the lowest multiple of the alignment inside the range, and fails just when there is none or the alignment is no power of two |
| IntervalNodes.RotateLeft | src/dragonball/src/dbs_allocator/src/interval_tree.rs:435-443 | a left rotation keeps the stored ranges and their order, relinks the three subtrees, and leaves both caches exact |
| IntervalNodes.RotateRight | src/dragonball/src/dbs_allocator/src/interval_tree.rs:445-453 | the mirror image |
| IntervalNodes.RotateLeftSuccessor | src/dragonball/src/dbs_allocator/src/interval_tree.rs:455-466 | on a node whose left side is two levels too high, the single or double rotation restores balance and exact caches, keeps contents and order, and leaves the height of the left side or one more |
| IntervalNodes.RotateRightSuccessor | src/dragonball/src/dbs_allocator/src/interval_tree.rs:468-478 | the mirror image |
| IntervalNodes.UpdatedNode | src/dragonball/src/dbs_allocator/src/interval_tree.rs:564-567 | re-caching and rotating a node whose subtrees differ in height by at most two yields a balanced tree with the same contents and order |
| IntervalNodes.Insert | src/dragonball/src/dbs_allocator/src/interval_tree.rs:333-364 | panics just when the key meets a stored range; otherwise adds exactly that entry, and the tree stays ordered, balanced and cached, growing by at most one level |
| IntervalNodes.GetNewRoot | src/dragonball/src/dbs_allocator/src/interval_tree.rs:491-503 | takes out the lowest node; the rest is a valid tree above it with all other entries |
| IntervalNodes.CombineSubtrees | src/dragonball/src/dbs_allocator/src/interval_tree.rs:505-510 | two valid siblings become one valid tree with the entries of both |
| IntervalNodes.DeleteRoot | src/dragonball/src/dbs_allocator/src/interval_tree.rs:480-489 | removes the root entry and no other, and the tree stays valid |
| IntervalNodes.Delete | src/dragonball/src/dbs_allocator/src/interval_tree.rs:398-420 | removes just the key's entry and returns its data; a missing key changes nothing; validity is kept and the height falls by at most one |
| IntervalNodes.Update | src/dragonball/src/dbs_allocator/src/interval_tree.rs:367-392 | panics just on a state change it does not accept; otherwise replaces the state of a stored key, returns its old data, and leaves shape, heights and every other entry alone |
| IntervalNodes.SearchSupersetFinds | src/dragonball/src/dbs_allocator/src/interval_tree.rs:301-313 | the descent finds the stored range that covers the key, or there is none |
| IntervalNodes.FirstMatchIsLowest | src/dragonball/src/dbs_allocator/src/interval_tree.rs:519-551 | the search, left side first, returns the lowest free range with room for the constraint, or there is none |
| IntervalTrees.GrantIsLowest | src/dragonball/src/dbs_allocator/src/interval_tree.rs:535-551 | a node passes the constraint check just when it covers an allowed range, and the range cut out of it is the lowest of those |
| IntervalTrees.IntervalTree.Insert | src/dragonball/src/dbs_allocator/src/interval_tree.rs:778-783 | adds the entry as free or valued; an overlap panics, with the root already taken out and the tree left empty |
| IntervalTrees.IntervalTree.Update | src/dragonball/src/dbs_allocator/src/interval_tree.rs:804-809 | panics just on a free range; otherwise sets the value of a held one, returns the old one, and changes nothing else |
| IntervalTrees.IntervalTree.Delete | src/dragonball/src/dbs_allocator/src/interval_tree.rs:826-835 | removes the entry and returns its data |
| IntervalTrees.IntervalTree.GetSuperset | src/dragonball/src/dbs_allocator/src/interval_tree.rs:658-665 | returns the stored range covering the key with its state, or none covers it |
| IntervalTrees.IntervalTree.Allocate | src/dragonball/src/dbs_allocator/src/interval_tree.rs:853-901 | grants the lowest admissible range and marks exactly it, or leaves the tree alone when none is admissible |
| IntervalTrees.IntervalTree.Carve | src/dragonball/src/dbs_allocator/src/interval_tree.rs:874-898 | replaces the candidate by the pieces around the grant, at most one on each side |
| IntervalTrees.IntervalTree.Free | src/dragonball/src/dbs_allocator/src/interval_tree.rs:904-933 | panics just when the key partly overlaps a stored range; otherwise exactly the key's values become free, other holdings stay, and no two free ranges touch |
| IntervalTrees.IntervalTree.LookAround | src/dragonball/src/dbs_allocator/src/interval_tree.rs:908-923 | finds the free ranges that hold the values just below and just above the key |
| IntervalTrees.NormalForm | src/dragonball/src/dbs_allocator/src/interval_tree.rs:904-933 | a coalesced pool is determined by what is held and which values are free: its stored ranges have one form |
| IntervalTrees.GrantThenRelease | src/dragonball/src/dbs_allocator/src/interval_tree.rs:853-933 | granting a range and freeing it restores the pool exactly, whatever was split and merged |
| Leases.RunsConserve | src/dragonball/src/resource_manager.rs:424-573 | in every state of every run of grants and frees over the six pools the outstanding ranges of a pool are pairwise disjoint and lie in its initial free space, and the pools equal the initial ones just when nothing is outstanding |
| Leases.LentCompose | src/dragonball/src/resource_manager.rs:424-573 | accounts add up: leases taken out later are disjoint from the earlier ones and come out of the same initial space |
| Sessions.DoAllocate | src/dragonball/src/resource_manager.rs:424-556 | granted just when the pools hold enough for all requests, and then backed by exactly those leases; otherwise stuck at a request that nothing left can meet, rolled back but for what could not go back, and its error says which it was |
| Sessions.DoRelease | src/dragonball/src/resource_manager.rs:559-573 | the list goes back resource by resource from the pools as they are, up to the first that is refused or panics |
| Sessions.SessionAccounts | src/dragonball/src/resource_manager.rs:424-573 | in any sequence of calls in which no list is given back twice, refused and failed calls included, what is out at each point is disjoint, inside the pools, and backs each open list on its own; the pools are as at the start just when nothing is out |
| Sessions.SessionRestores | src/dragonball/src/resource_manager.rs:424-573 | if moreover no request can be granted what cannot go back, no call crashes, and the pools are restored once all lists are given back |
| Sessions.Serve | src/dragonball/src/resource_manager.rs:424-573 | any sequence of the two calls on one manager, lists given back again included: every reply and every state of the pools is that of its call, the open lists are those granted less those given back, and the two theorems above hold of the result |
| Sessions.GivenBackTwice | src/dragonball/src/resource_manager.rs:559-573 | giving a range back that is not on loan to its holder any more changes nothing just when nobody else has it by now |
| Sessions.PortSharedByTwo | src/dragonball/src/resource_manager.rs:424-573 | five calls on a fresh manager, one list given back twice, after which two open lists both hold port 0 |
| Leases.LendOne | src/dragonball/src/resource_manager.rs:424-556 | one more grant keeps the leases disjoint, inside, and accounted for |
| Leases.ReturnOne | src/dragonball/src/resource_manager.rs:559-573 | giving a lease back takes exactly it off the account |
| ResourceManagers.NewMemPool | src/dragonball/src/resource_manager.rs:132-146 | the memory pool is guest memory less the MMIO hole, in one or two ranges |
| ResourceManagers.ReservationFits | src/dragonball/src/resource_manager.rs:105-113 | the reservation for system devices cannot fail and gets the 64 MiB below the last address of the low window |
| ResourceManagers.NewMmioPool | src/dragonball/src/resource_manager.rs:97-120 | the MMIO pool is the low window, with that reservation held where guest memory surrounds it, and the space above guest memory |
| ResourceManagers.ResourceManager.New | src/dragonball/src/resource_manager.rs:192-202 | a new manager has six valid pools with their initial contents: five all free, the MMIO pool with its reservation |
| ResourceManagers.FreshValues | src/dragonball/src/resource_manager.rs:70-202 | value by value: every interrupt but the shared one, every port and slot, guest memory outside the low window, and MMIO but for 64 MiB below the last address of the window, are free at first |
| ResourceManagers.ReturnableIsHarmless | src/dragonball/src/resource_manager.rs:245-420 | the free path leads a grant back to its own pool and range just when it is harmless; otherwise it is refused by its pool's check, or frees the wrong slot range |
| ResourceManagers.SafeRequestsAreHarmless | src/dragonball/src/resource_manager.rs:424-556 | requests that do not allow a grant ending on the last port or the last guest address, nor several KVM slots, only get harmless grants |
| ResourceManagers.SafeExactly | src/dragonball/src/resource_manager.rs:424-556 | and they are the only requests of which that is true |
| ResourceManagers.ResourceManager.AllocateOne | src/dragonball/src/resource_manager.rs:430-552 | as numbers: a request is refused just when no free values of its kind and size meet it (aligned to a power of two, inside its range, the very interrupt or slot asked for, MSI numbers a multiple of their count); otherwise the lowest such values are described and taken, and no others |
| ResourceManagers.GrantServes | src/dragonball/src/resource_manager.rs:430-552 | a first fit in the interval tree is the lowest free values that meet the request, and takes exactly these |
| ResourceManagers.HopelessIsUnmet | src/dragonball/src/resource_manager.rs:430-552 | a request without a fit is one that no free values meet |
| ResourceManagers.ServedAgree | src/dragonball/src/resource_manager.rs:424-556 | serving requests one after the other has one outcome, and only one |
| ResourceManagers.ResourceManager.FreeOne | src/dragonball/src/resource_manager.rs:245-420 | frees the described range, refuses it by its pool's check, or panics, as the descriptor and the pool decide |
| ResourceManagers.GoesBack | src/dragonball/src/resource_manager.rs:245-420 | what goes back makes exactly the described values free again |
| ResourceManagers.StaysOut | src/dragonball/src/resource_manager.rs:245-420 | what does not is refused just when its end does not fit its type or it lies outside its fixed range, and else is empty or cuts across a stored range, and panics |
| ResourceManagers.ResourceManager.FreeDeviceResources | src/dragonball/src/resource_manager.rs:559-573 | any list goes back one resource after the other up to the first that is refused or panics, and the rest is left alone |
| ResourceManagers.LeasedFree | src/dragonball/src/resource_manager.rs:559-573 | of a granted list each resource before the stop was harmless, and the rest is still leased |
| ResourceManagers.LeasedStop | src/dragonball/src/resource_manager.rs:559-573 | the stop is at a harmful grant, and the error names its pool |
| ResourceManagers.NewLeaseUnique | src/dragonball/src/resource_manager.rs:430-552 | a request has one first fit, and the pools after it have one form |
| ResourceManagers.ResourceManager.AllocateDeviceResources | src/dragonball/src/resource_manager.rs:424-556 | grants just when the requests can be served one after the other, each with the lowest free values that meet it, and then exactly these are taken; the grants follow from the pools and the requests, are disjoint and inside the free space; a failed transaction restores the pools just when every grant made before the failure is harmless, and else the error or crash and what is left out follow from the first harmful one |
| ResourceManagers.FirstPortGranted | src/dragonball/src/resource_manager.rs:432-447 | the first port asked for on a fresh manager is port zero |
| ResourceManagers.LastPortLeaks | src/dragonball/src/resource_manager.rs:328-338 | a failing transaction that was granted the last I/O port returns another error and leaves the pools changed |
| MemoryLayouts.PlaceIsSound | src/dragonball/src/address_space_manager.rs:282-313 | one size becomes one or two regions that avoid the hole, ascend, add up, and skip only the hole and a gap under 128 MiB just below it |
| MemoryLayouts.LayoutIsSound | src/dragonball/src/address_space_manager.rs:268-314 | for every size list the regions ascend, are disjoint, avoid the hole, add up to the sizes, number at most one more than the list, and leave nothing unused but the hole and the gap below it |
| MemoryLayouts.LayoutIsExact | src/dragonball/src/address_space_manager.rs:268-314 | in closed form: the sizes are stacked up to the one that reaches the hole, that one is split at the hole just when at least 128 MiB are left below it and else lies above it, and the rest is stacked behind it |
| MemoryLayouts.CheckedIsPlace | src/dragonball/src/address_space_manager.rs:282-313 | the checked arithmetic fails just when the next start would pass the last `u64`, and never in the subtraction |
| MemoryLayouts.LayOut | src/dragonball/src/address_space_manager.rs:268-314 | the loop yields that layout, or fails just when it ends past the last `u64`, and gives each NUMA node the regions made for it |
| MemoryLayouts.NodeTotals | src/dragonball/src/address_space_manager.rs:641-656 | the regions of a node hold the bytes requested for it, with memory for no node counted to node zero |
| MemoryLayouts.BytesAre | src/dragonball/src/address_space_manager.rs:275-278 | the shift to bytes keeps the lower 44 bits of the size in MiB |
| MemoryLayouts.AllBytesLaidOut | src/dragonball/src/address_space_manager.rs:275-278 | the layout holds all the memory asked for just when no size in MiB loses bits in the shift |
| MemoryLayouts.LostSize | src/dragonball/src/address_space_manager.rs:275-278 | 2^44 MiB are laid out as zero bytes |
| AddressSpaces.PinnedGrant | src/dragonball/src/address_space_manager.rs:316-333 | a request pinned to a region can only be granted at the region's own start |
| AddressSpaces.ReserveOne | src/dragonball/src/address_space_manager.rs:316-333 | claims the region at its start and the next KVM slot; the error says just which of the two is missing |
| AddressSpaces.ReserveRegions | src/dragonball/src/address_space_manager.rs:316-333 | on a fresh manager the reservation succeeds just when the regions fit, region `i` gets slot `i`, and exactly the regions and those slots are taken; otherwise the error is that of the first region that does not fit |
| AddressSpaces.LayoutFits | src/dragonball/src/address_space_manager.rs:268-333 | a layout fits just when no size is zero, it ends at or below the end of guest memory, and there are slots enough |
| AddressSpaces.CreateAddressSpace | src/dragonball/src/address_space_manager.rs:262-333 | creation succeeds just when the layout fits, and then maps every region base to a slot of its own, takes exactly the laid-out memory and gives each NUMA node its regions; each error has its exact cause |
| AddressSpaces.PreallocRanges | src/dragonball/src/address_space_manager.rs:558-577 | one thread for each 4 GiB begun, at most 16, get consecutive page ranges from the first page to the last, all but the last of the same length |
| AddressSpaces.EveryPageOnce | src/dragonball/src/address_space_manager.rs:558-577 | such ranges cover every page exactly once |
| Tarfs.RangeChecks | src/tarfs/tarfs.c:69-75 | the wrapping checks pass just when the range lies in the data part in true arithmetic |
| Tarfs.DevRead | src/tarfs/tarfs.c:62-91 | fills exactly the given part of the buffer with the flat bytes of the image, reading each block once and in order, or fails as a flat reader would |
| Tarfs.CompareIsEquality | src/tarfs/tarfs.c:342-373 | with readable blocks a comparison says same just when the range is in bounds and equal |
| Tarfs.StrCmp | src/tarfs/tarfs.c:342-373 | the block-wise comparison finds the first readable difference, and reports an error just when an unreadable block comes before any |
| Tarfs.FetchEntry | src/tarfs/tarfs.c:117-163 | one entry read through the reused buffers is the entry of the flat image |
| Tarfs.DirentLayout | src/tarfs/tarfs.c:39-45 | an entry written as three little-endian words and a type byte is decoded to those fields |
| Tarfs.EntryDecoded | src/tarfs/tarfs.c:114-165 | an entry on disk is listed with the name it points to, its inode, and its type if that is a known one |
| Tarfs.ReadDir | src/tarfs/tarfs.c:93-171 | a call emits the entries from its position until the consumer refuses or one cannot be read, stands behind the last accepted one, and reports an error only when it emitted nothing |
| Tarfs.CallFails | src/tarfs/tarfs.c:93-170 | a call fails just for a position between entries, a directory whose end overflows, or a first entry that cannot be read, with the error of each, and then has moved nowhere |
| Tarfs.AcceptedAre | src/tarfs/tarfs.c:114-165 | what a call passes on is the entries one after the other, up to the end, the room, or the first that cannot be read |
| Tarfs.AcceptedSplits | src/tarfs/tarfs.c:93-171 | more room gives the same entries followed by those a second call would start with |
| Tarfs.CallsResume | src/tarfs/tarfs.c:93-171 | a run of calls accepts what one call with all the room would |
| Tarfs.ListingResumes | src/tarfs/tarfs.c:93-171 | however calls are cut, the accepted entries are a prefix of the flat listing, without repeats or gaps, and all of it at the end |
| Tarfs.Lookup | src/tarfs/tarfs.c:375-418 | the loop answers as the scan over flat entries does, with its range error |
| Tarfs.LookupStops | src/tarfs/tarfs.c:394-412 | an entry or name that cannot be read ends the search with that error |
| Tarfs.LookupAgrees | src/tarfs/tarfs.c:375-418 | where the directory can be listed, lookup asks for the inode of the first listed entry with that name, and says ENOENT just when there is none |
| Tarfs.TableCheckMeans | src/tarfs/tarfs.c:556-573 | the wrapping checks accept the inode table just when it lies in the data, and tell an overflow from a table that is too big |
| Tarfs.MountChecksSuffice | src/tarfs/tarfs.c:258-274 | after them no inode offset wraps, every inode read passes both range checks, and inodes do not overlap |
| Tarfs.ReadPage | src/tarfs/tarfs.c:173-215 | a page gets the file's bytes followed by zeros, or only zeros with an error |
| Tarfs.PagesAreTheFile | src/tarfs/tarfs.c:173-215 | the pages of a file in readable data are the file cut at the page size and padded, for every size below 2^63, and zeros above |
| Tarfs.PageFails | src/tarfs/tarfs.c:173-215 | a page fails just when the file covers part of it that is outside the data or in an unreadable block |
| Tarfs.LargeFileLost | src/tarfs/tarfs.c:173-215 | on every device, every page of a file whose size is 2^63 or more is read as zeros without an error, where a flat read fails |
| Tarfs.OnesReadAsZeros | src/tarfs/tarfs.c:173-215 | one block of ones that is read as it is, and as zeros when the inode claims 2^63 bytes |
| SourceTrees.PreorderParentsFirst | src/agent/src/watcher.rs:271-296 | a scan meets a directory before what it holds |
| SourceTrees.PreorderNoRepeats | src/agent/src/watcher.rs:271-296 | and every path once |
| SourceTrees.MetIsFound | src/agent/src/watcher.rs:233-307 | a scan meets an entry at a path just when it is found there by going down the names |
| ScanAccounts.UpdatesAreTheDue | src/agent/src/watcher.rs:251-282 | exactly the new entries and the newer leaves are handed over for copying, in the order met |
| Mirrors.LimitMeans | src/agent/src/watcher.rs:265-271 | the entry limit is on the paths recorded or met so far, each time a leaf is met |
| Mirrors.LastLeafDecides | src/agent/src/watcher.rs:265-271 | so only the count at the last leaf decides |
| ScanAccounts.TotalIsWeight | src/agent/src/watcher.rs:248-250 | the total is the bytes of all files and the lengths of all link destinations in the tree |
| Watchers.Storage.ScanPath | src/agent/src/watcher.rs:233-307 | for every tree and order, succeeds just when the leaves total at most 1 MiB and the entry limit holds, and then returns the total, the times recorded and the paths due; otherwise it stops at a leaf too many or at the end of a file or directory too large, with its count or size in the error and the times of all it met on record |
| Watchers.TargetPathsMatch | src/agent/src/watcher.rs:309-323 | target paths are defined on the source mount alone, reach every target path, and keep what lies above what |
| Mirrors.UpdateLands | src/agent/src/watcher.rs:121-178 | with directories above and nothing in the way, an update puts exactly the entry's shape at its path |
| Mirrors.UpdateElsewhere | src/agent/src/watcher.rs:121-178 | an update that no link leads away leaves all other paths alone, and its own where it cannot replace what is there |
| Mirrors.WritesThrough | src/agent/src/watcher.rs:88-101 | a file written to a link lands where the link leads, and the link stays |
| Mirrors.LandsElsewhere | src/agent/src/watcher.rs:121-178 | what comes in below a link lands where that leads |
| Mirrors.NothingThrough | src/agent/src/watcher.rs:88-178 | no link leads an update away unless a kept link turned into something else |
| Mirrors.LostLinkStays | src/agent/src/watcher.rs:88-178 | a kept link stays a link, wherever updates are led |
| Mirrors.LostStays | src/agent/src/watcher.rs:121-178 | unless a kept link turned into something else, a kept path the scan cannot follow stays as it was |
| Mirrors.RemovalThins | src/agent/src/watcher.rs:197-212 | removing a path that is gone, with all below it, removes nothing that is still in the source |
| Watchers.Storage.RemoveGone | src/agent/src/watcher.rs:187-212 | in whatever order, the removals leave any target without the paths that are gone and what was below their directories, which for a copy of the last source is exactly what is still there |
| Watchers.Storage.CopyUpdates | src/agent/src/watcher.rs:223-227 | the updates are applied in order, failures passed over |
| Mirrors.MirrorsExactly | src/agent/src/watcher.rs:180-230 | after the copies the target has the paths of the source, files with their bytes, links with their destinations and directories, just when every kept path could be followed |
| Mirrors.RescanUpdates | src/agent/src/watcher.rs:187-230 | a rescan without changes hands over the dangling links and nothing else |
| Watchers.ChangeUnseen | src/agent/src/watcher.rs:251-262 | a file that changed and kept its modification time: the scan succeeds, copies nothing, and the target differs |
| Watchers.LinkCopiedAgain | src/agent/src/watcher.rs:187-230 | a rescan of an unchanged directory with one dangling link that reports one update |
| Watchers.Storage.Scan | src/agent/src/watcher.rs:180-230 | a scan succeeds just within the limits, records the time of every path found in the source, returns the number of due paths, and leaves at every path what is found there in the source just when all changes could be followed; from any target it copies the due paths onto what the removals leave; a failed one has removed what is gone, copied nothing, and recorded the times of all it met |
| Watchers.FailureForgets | src/agent/src/watcher.rs:214-271 | a scan that fails on a large file records the new time of another, and the next scan succeeds, finds nothing due and leaves its old copy |
| Watchers.Storage.Watch | src/agent/src/watcher.rs:484-504 | a run of scans succeeds just when the source is within both limits at each, and has then recorded the last source; while all could follow the changes the target holds at every path what the last source does, and a first lapse shows in it |
| Uevents.MemoryHotAddMeans | src/agent/src/uevent.rs:67-77 | the memory case is taken just for a device path without leading slash under the memory directory |
| Uevents.InvStep | src/agent/src/uevent.rs:66-160 | every critical section keeps slots with their owners, deliveries wanted, and no known event wanted by a full slot |
| Uevents.EveryRunIsSafe | src/agent/src/uevent.rs:66-160 | so does every run from the start |
| Uevents.MapIsHistory | src/agent/src/uevent.rs:66-101 | in every run the map holds under a device path exactly the event of the device that came there last, was no memory, and has not gone since |
| Uevents.SentOnce | src/agent/src/uevent.rs:85-94 | no channel is sent a second event |
| Uevents.FirstMatchDelivered | src/agent/src/uevent.rs:81-160 | a waiter whose timer does not fire is sent the first matching event after it registered |
| Uevents.ExpiredSlot | src/agent/src/uevent.rs:144-156 | between timeout and lock a slot stays full just while no matching event comes in |
| Uevents.PanicsExactly | src/agent/src/uevent.rs:146-155 | the unwrap panics just when one did |
| Uevents.PanicIsReachable | src/agent/src/uevent.rs:115-160 | a run of four steps that panics |
| Uevents.EventBoard.ProcessAdd | src/agent/src/uevent.rs:66-95 | takes the step of a run that adds the event: recorded, and handed to every watcher it matches |
| Uevents.EventBoard.Notify | src/agent/src/uevent.rs:84-94 | the loop empties exactly the matching slots and sends to those still listening |
| Uevents.EventBoard.ProcessRemove | src/agent/src/uevent.rs:98-101 | takes the step of a run that removes the device |
| Uevents.EventBoard.Enroll | src/agent/src/uevent.rs:123-138 | answers at once just when some device that is there by the run so far matches, with such a one, in any map order; and else registers at the next index |
| Uevents.EventBoard.Accept | src/agent/src/uevent.rs:144-145 | what a waiter receives is what it asked for |
| Uevents.EventBoard.TimeOut | src/agent/src/uevent.rs:144-146 | takes the step of a run in which the timer fires |
| Uevents.EventBoard.TakeSlot | src/agent/src/uevent.rs:146-155 | empties the waiter's own slot and reports the timeout, or panics on an empty one |
| ProcessWait.StepKeeps | src/agent/src/rpc.rs:503-552 | every step of waiters, reaper, kernel and container keeps recorded codes true, entries under their pids, and in each channel of a collected process what its entry said, once |
| ProcessWait.WakeFinds | src/agent/src/rpc.rs:521-527 | without reuse the entry a woken waiter finds by pid is its own process, with its own end on record |
| ProcessWait.StepClean | src/agent/src/signal.rs:24-79 | a step that reuses no pid too early keeps every record and every pending report with its own process |
| ProcessWait.WaitsAgree | src/agent/src/rpc.rs:503-552 | in every interleaving without reuse all waits that return for one process return the status it ended with |
| ProcessWait.CodeIsInHand | src/agent/src/rpc.rs:543-550 | in every interleaving, once a process is collected every waiter for it is done or has exactly what its entry said, once, in its own channel; without reuse that is its own status |
| ProcessWait.WakeAnswers | src/agent/src/rpc.rs:521-552 | in every interleaving a waiter is told what the entry under its pid says, else what its own process's entry said when it was collected, else it fails; it is told about its own process just when that entry has its own end on record; and it never blocks on its channel with the lock held |
| ProcessWait.ReuseIsFatal | src/agent/src/rpc.rs:503-552 | after any too early reuse things can go on so that a waiter is told about another process |
| ProcessWait.SafeExactly | src/agent/src/rpc.rs:503-552 | a run is without such reuse just when at no point of it that is possible |
| ProcessWait.ReuseMisleads | src/agent/src/rpc.rs:526-552 | with a pid reused while waited for, the old waiter reports the new, running process and removes its entry |
| ProcessWait.LateRecordMisleads | src/agent/src/signal.rs:28-73 | with a pid reused between `waitpid` and the sandbox lock, the new process's waiter is told the old status |
| ProcessWait.ReportsWake | src/agent/src/signal.rs:51-73 | in every interleaving in which no report goes to another container, whoever waits for a process that has ended can move on once the reaper is done with it |
| ProcessWait.MisfiledStrands | src/agent/src/sandbox.rs:270-278 | a report that an entry of another container takes leaves the waiter waiting, with no pid used twice in its own container |
| ProcessWait.StrandedStays | src/agent/src/sandbox.rs:270-278 | such a waiter never moves on before the container is removed or a pid is reused |
| ProcessWait.RemovalFails | src/agent/src/rpc.rs:521-527 | once the container is removed everybody who waits can move on, and fails |
| ProcessWait.ProcessTable.Enlist | src/agent/src/rpc.rs:505-513 | leaves a sender with the process, or fails without a change |
| ProcessWait.ProcessTable.WaitPid | src/agent/src/signal.rs:27-41 | a child is waited for outside the sandbox lock, and its pid is free from then on |
| ProcessWait.ProcessTable.RecordExit | src/agent/src/signal.rs:51-73 | under the lock the code is recorded with whatever entry has the pid, here or in a container met before |
| ProcessWait.ProcessTable.StartProcess | src/agent/rustjail/src/container.rs:1117 | a started process takes the entry under its pid, and drops an older one |
| ProcessWait.ProcessTable.HandleSigchild | src/agent/src/signal.rs:24-79 | the loop records every exit and signal reported and passes over other statuses, with any steps of others before each `waitpid` and between it and the lock; each process has then ended with its exit code or the number of its signal |
| ProcessWait.ProcessTable.TakeTurn | src/agent/src/signal.rs:51-73 | after a turn filed here the entry under the pid has the exit code, or the number of the signal; another status leaves all as the others left it |
| ProcessWait.TurnsEnd | src/agent/src/signal.rs:24-79 | over every run each process the reaper got a status for has ended with its exit code or the number of its signal |
| ProcessWait.TurnsTold | src/agent/src/rpc.rs:503-552 | and without reuse every waiter for it that returns is told just that |
| ProcessWait.ProcessTable.Finish | src/agent/src/rpc.rs:521-552 | collects the process under the pid and returns and broadcasts the code on record, zero before there is one; or returns the first code in the own channel; or fails |
| ProcessWait.ProcessTable.SendToAll | src/agent/src/rpc.rs:545-548 | each listed waiter that still listens gets the answer once |
| SandboxStorage.AddConserves | src/agent/src/sandbox.rs:162-175 | an add counts one reference more just when the 32-bit counter has room |
| SandboxStorage.CounterWraps | src/agent/src/sandbox.rs:88-94 | a full counter starts again at zero, and one below zero is full |
| SandboxStorage.UpdateConserves | src/agent/src/sandbox.rs:178-191 | a device update keeps the count just when at most one reference was taken |
| SandboxStorage.RemoveConserves | src/agent/src/sandbox.rs:197-211 | a remove gives one reference back, and the last one drops the entry and cleans up |
| SandboxStorage.OnePathOnly | src/agent/src/sandbox.rs:162-211 | each operation is about its own path, and a device stays with its path until another is put in its place |
| SandboxStorage.RunConserves | src/agent/src/sandbox.rs:162-211 | over every run of guarded steps a count is adds less what was given back, and the entry exists just while that is positive |
| SandboxStorage.LateUpdateLoses | src/agent/src/storage/mod.rs:170-196 | a run of two users in which the second one's reference is lost |
| SandboxStorage.CleanedOncePerLife | src/agent/src/sandbox.rs:197-211 | over every run cleanup happens once for each lifetime of a path that is over |
| SandboxStorage.BackwardsTakes | src/agent/src/rpc.rs:1660-1669 | a list of mounts gives back a reference per occurrence, as far as there are any |
| SandboxStorage.BackwardsCleans | src/agent/src/rpc.rs:1657-1669 | exactly the paths whose last reference goes are cleaned up, what is later in the list first |
| SandboxStorage.ContainerTakes | src/agent/src/rpc.rs:1644-1674 | removing a container gives back a reference per recorded mount and drops its record |
| SandboxStorage.ContainerCleans | src/agent/src/rpc.rs:1644-1674 | a container's mounts are cleaned up in reverse order of its record, just when their last reference goes |
| SandboxStorage.OnlySandboxRemains | src/agent/src/rpc.rs:1644-1674 | when every recorded mount holds a reference, removing all containers in any order leaves the sandbox's own |
| SandboxStorage.AllTakenCounts | src/agent/src/storage/mod.rs:160-236 | each storage added takes one reference; a failing call keeps those before, and its own when no handler was found |
| SandboxStorage.FailedCallKeeps | src/agent/src/storage/mod.rs:221-227 | a call that fails at its second storage and keeps the reference of the first |
| SandboxStorage.MountsAreThePaths | src/agent/src/storage/mod.rs:160-236 | when devices report their mount points the returned list is the requested paths |
| SandboxStorage.NamelessUnlisted | src/agent/src/storage/mod.rs:205-236 | a storage whose device has no path is counted and not listed |
| SandboxStorage.EarlyUserUnlisted | src/agent/src/storage/mod.rs:160-180 | a user who comes before the device of the first is counted and has nothing listed |
| SandboxStorage.ContainerCycle | src/agent/src/rpc.rs:216-219 | taking storages, recording them and removing the container leaves every count as it was |
| SandboxStorage.Sandbox.AddSandboxStorage | src/agent/src/sandbox.rs:162-175 | inserts with count one or increments, and returns the entry |
| SandboxStorage.Sandbox.UpdateSandboxStorage | src/agent/src/sandbox.rs:178-191 | replaces the device of a known path and returns the old one, or returns the new one unused |
| SandboxStorage.Sandbox.RemoveSandboxStorage | src/agent/src/sandbox.rs:197-211 | the result tells the four outcomes apart: unknown path, references left, cleaned up, or failed to clean up, which still removes |
| SandboxStorage.Sandbox.RemoveContainerResources | src/agent/src/rpc.rs:1644-1674 | both loops together remove the mounts present, last first, and the record |
| SandboxStorage.Sandbox.AddStorages | src/agent/src/storage/mod.rs:160-236 | the loop adds storages up to the first that cannot be had |
| CopyFile.StemMeans | src/agent/src/rpc.rs:1826-1827 | the name is cut at its last dot, unless that is its first character or there is none |
| CopyFile.TempIsOwnName | src/agent/src/rpc.rs:1826-1827 | the temporary file is the file itself just when its name ends in `.tmp` after at least one character |
| CopyFile.TempsMeet | src/agent/src/rpc.rs:1826-1827 | two files share a temporary file just when they differ in the extension alone |
| CopyFile.OthersPassBy | src/agent/src/rpc.rs:1826-1852 | uploads that share no name leave the two files of an upload to its own requests |
| CopyFile.Gathering | src/agent/src/rpc.rs:1829-1840 | before the last byte the destination is as it was and the temporary file holds what was sent |
| CopyFile.Publishing | src/agent/src/rpc.rs:1838-1852 | from the last byte on the destination is the concatenation of the chunks |
| CopyFile.AtomicPublish | src/agent/src/rpc.rs:1826-1852 | for every chunking in order and every interleaving with other files the destination is the old file or the whole new one |
| CopyFile.WrittenInPlace | src/agent/src/rpc.rs:1826-1852 | a file that is its own temporary file holds, after each chunk, what was sent over what it held before |
| CopyFile.UploadsMixed | src/agent/src/rpc.rs:1826-1852 | for any two files that share a temporary file, three requests after which one is published with a zero for its first byte |
| CopyFile.NeverRenamed | src/agent/src/rpc.rs:1835-1840 | a longer leftover is never published |
| CopyFile.PublishedAtOnce | src/agent/src/rpc.rs:1835-1852 | a leftover of the same size is published with the first chunk over it |
| CopyFile.OnTimeExactly | src/agent/src/rpc.rs:1826-1852 | the completing chunk and no other renames, just when no leftover is in the way |
| CopyFile.InBaseMeans | src/agent/src/rpc.rs:1766-1772 | a path is accepted just when it begins with the two names of the base directory |
| CopyFile.RefusedChangesNothing | src/agent/src/rpc.rs:1766-1840 | a refused request changes the contents of no file, and leaves at most an empty temporary file behind |
| CopyFile.FileStore.CopyFile | src/agent/src/rpc.rs:1763-1852 | the files after a request for a regular file, and its two faults |
| Separators.SplitJoin | src/agent/src/pci.rs:173-191 | parts without the separator come back from their joined text |
| Separators.JoinSplit | src/agent/src/pci.rs:184-191 | splitting loses nothing and leaves no separator in a part |
| Hex.PaddedRead | src/agent/src/pci.rs:91-95 | a number printed to any width reads back |
| Hex.ReadsBack | src/agent/src/pci.rs:81-87 | it parses just when it is in the type's range |
| Hex.Signs | src/agent/src/pci.rs:81-87 | one sign may come before the digits, a minus only for a signed type |
| Hex.EitherCase | src/agent/src/pci.rs:81-87 | digits of either case are worth the same |
| Hex.NoNumber | src/agent/src/pci.rs:81-87 | a text without digits is no number |
| Pci.PackingIsExact | src/agent/src/pci.rs:26-64 | packing slot and function into a byte and unpacking are inverse, accept exactly 5 and 3 bits, and put the slot above the function |
| Pci.SlotFnRoundTrip | src/agent/src/pci.rs:66-95 | every slot and function parses back from its text |
| Pci.SlotFnTexts | src/agent/src/pci.rs:66-90 | a text with one dot is a slot and a function, one without a dot function zero of the slot, and more dots are refused |
| Pci.AddressText | src/agent/src/pci.rs:93-97 | an address is printed with four, two, two digits and one, and its separators between them |
| Pci.AddressRoundTrip | src/agent/src/pci.rs:122-150 | every address parses back from its text, which has no comma |
| Pci.PathRoundTrip | src/agent/src/pci.rs:152-191 | every path of at least one hop, however long, parses back from its text |
| Pci.ParsedPath | src/agent/src/pci.rs:184-191 | whatever parses is a non-empty path that prints and parses back to itself |
| Pci.ParsedAddress | src/agent/src/pci.rs:122-144 | whatever parses is an address within its fields |
| EnvPci.TranslateValue | src/agent/src/device.rs:726-734 | the inner loop translates the addresses in order up to the first fault |
| EnvPci.UpdateEnvPci | src/agent/src/device.rs:708-739 | rewrites every entry in place, or stops at the first that cannot be, with those before rewritten and the rest untouched |
| EnvPci.TranslatedMeans | src/agent/src/device.rs:708-739 | an entry can be rewritten just when it has an equals sign and, if it names PCI devices, all its addresses parse and are mapped; its rewritten value splits and parses to their images in order, and other entries are unchanged |
| EnvPci.PartsMean | src/agent/src/device.rs:713-718 | the first equals sign divides an entry, and only one without any cannot be divided |
| EnvPci.GuestsFail | src/agent/src/device.rs:726-734 | the first address that does not parse or is not mapped decides the fault |
| SpecDevices.UpdatesLand | src/agent/src/device.rs:628-664 | every update lands on the first device with its original path, and on no other: it gets the guest's numbers and its new path, if any, and keeps its type |
| SpecDevices.TradedNumbers | src/agent/src/device.rs:679-698 | when two devices trade numbers each rule follows its own device and is not mapped back |
| SpecDevices.LinuxSpec.UpdateDevices | src/agent/src/device.rs:626-677 | fails with a conflict just when two updated devices share type and host numbers, rewritten up to the first that does, and otherwise with a missing device just when an update finds none; tabulates the updated devices on success |
| SpecDevices.LinuxSpec.UpdateRules | src/agent/src/device.rs:678-699 | maps each rule once, by what it said before |
| SpecDevices.LinuxSpec.UpdateSpecDevices | src/agent/src/device.rs:621-702 | the whole update as a simultaneous substitution, with the exact cause of each of its three faults and the devices and rules it leaves behind |

## Left out

- The agent's RPC handlers other than those modelled, policy checks, networking, namespaces, cgroups, metrics, tracing and configuration: calls into other systems.
- Mapping and advising memory, binding it to NUMA nodes, KVM calls and the vCPU lists of NUMA nodes: no logic beyond the calls.
- The mutexes of the resource manager and the address-space manager: their methods are modelled one at a time.
- The state after a panic in the resource manager.
- A manager asked for more KVM memory slots than 32 bits can number.
- ResourceManagers.ResourceManager.AllocateDeviceResources: pools that were given ranges from outside their bounds, by freeing what was never granted, are excluded, because what the free checks do with a grant from there is not classified.
- IntervalTrees.IntervalTree.Allocate: a pool that holds the whole 64-bit range as one node is excluded, because the length of that range overflows in the source.
- Ranges.AlignToIsLowest: the bit tricks of alignment are modelled as arithmetic on the numbers.
- Failures of single system calls while an address space is created, once the layout and the reservation are decided.
- Tarfs.FetchEntry: memory for a name is modelled as failing above a size limit and not from time to time.
- The decoding of inodes, the inode cache, dentries, NFS handles and extended attributes of tarfs.
- Watchers.Storage.Scan: each scan sees one state of the source, and does not model a source that changes during a scan, special files, a mount point that is itself a link, permissions and ownership, or system calls that fail for other reasons than the shape of the target.
- Mirrors.UpdateElsewhere: where a path below a link leads is a parameter, one place for each; the directories made on the way there are not modelled. No theorem depends on what lies there, except that a link is replaced only by a link.
- Watchers.Storage.Watch: a directory replaced by a link to a directory with entries of the same names is not modelled, because such entries still exist when seen through the link; the target directory made before the first scan is taken as made by that scan.
- The hand-over from a watched mount to a bind mount when a limit is passed.
- Parsing of kernel event messages and the matchers for each kind of device: a matcher is any predicate.
- ProcessWait.ProcessTable.Finish: one container is modelled, with every process outside its table a `Fork` and every report that another container's entry takes a `Misfile`; closing the standard streams of a process is not modelled.
- SandboxStorage.Sandbox.AddStorages: storages are added without another task in between; what interleaving can do to the counts is in `SandboxStorage.LateUpdateLoses`. What a device does on creation is a parameter.
- CopyFile.FileStore.CopyFile: directories, links, permissions and ownership of an upload are not modelled, and neither are paths whose last component is not a name.
- The option syntax of VFIO devices and CCW and AP addresses: they would only add easy members.
