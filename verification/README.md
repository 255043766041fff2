# minixrs, verified

minixrs is a MINIX port in Rust with a browser host: each process is a WebAssembly instance, the page
is the machine, and a set of tools builds the images it boots. This project models the algorithms of
that system whose correctness is not visible from any one function and proves what they promise, in
Dafny 4.11. `dafny verify dfyconfig.toml` checks all of it.

Throughout, pure specification functions say what the code computes, lemmas say what holds of every
input, run or reachable state, and classes and methods with loops, written where the source changes
things in place, are proved to compute those functions.

## What is modelled

**The wasm host engine** (`Engine`, `Slices`, `Transparency`, `Host`, `Dispatcher`; `docs/host.js`).
The syscall gate with its suspensions (nothing, yield, resumed, blocked), the dispatch loop, slices and
the global budget, fork, exec and the copy seam. A guest is a module whose behaviour between two calls
of the gate is a function of its memory, the value the last call returned and what the host's other
imports answer it on the way; the kernel, its queues and the devices are one abstract machine that may
ask for copies, forks and execs while it handles a syscall. The main theorem is that stopping and
replaying is invisible to every guest and to the kernel. `Dispatcher` runs it over the process table
of `Host`, in place, and keeps the table valid through every pump.

**The write-through disk** (`Store`, `Sessions`, `ImageId`, `DiskStore`; `docs/store.js`, the device in
`docs/host.js`). A disk in memory, page records in a database, and reopening: crash consistency for
every set of committed transactions, and over whole histories of sessions which image's pages are in
the store.

**The MINIX V3 image builder** (`MinixFs`, `MinixRead`, `Bitmap`, `MinixBuild`, `MinixImage`,
`MinixTheorem`; `tools/mkminixfs.rs`). The builder class is proved to lay out exactly the tree it was
asked for, and a reader that has nothing but the bytes recovers every file.

**Synchronous IPC in the kernel** (`Ipc`, `IpcRuns`, `IpcDeadlock`, `IpcExit`, `IpcDelivery`,
`IpcReplies`, `KernelTable`; `crates/kernel/src/ipc.rs`, `crates/kernel/src/system.rs`). Send, receive,
send-and-receive, notifications and the clearing of an endpoint when a process exits, over the process
table and over every run of calls, whoever they name: exactly which calls break the freedom from
deadlock, the queues, and the reply marks, and that messages are delivered once each and in order.

**Archives and page tables** (`Cpio`, `PageWalk`; `tools/mkinitramfs.rs`,
`crates/kernel/src/initramfs.rs`, `tools/dso_share_probe.py`, `tools/pt_walk_probe.py`). The newc writer
against a full reader and against the kernel's own lookup; the batched page walk and the exhaustive
search against the pointwise walk.

**Link ordering and the `cc` wrapper** (`Deps`, `CcScan`; `tools/llvm-config-minix.rs`,
`tools/cc-dso-minix.py`).

**The page** (`Wake`, `Page`, `Argv`, `Utf8`, `Terminal`, `Checksum`, `Net`, `Gateway`; `docs/page.js`,
`docs/host.js`, `docs/terminal.js`, `docs/net.js`, `tools/udp_checksum_check.py`). Events, the engine's
pump and park; argument lists through exec and through the browser's text decoder (section 8.1 of the
Encoding Standard); the console renderer; the in-page gateway and its checksums (section 1 of RFC 1071,
"Echo or Echo Reply Message" of RFC 792, "Packet Reception" of RFC 826).

## Where the code and its description part

The model follows the code. These are stated as lemmas or follow from one:

- A fragment of an echo request is answered like a whole packet, although the comment at
  `docs/net.js:130` says there is nothing to answer (`Net.FragmentsAreAnswered`).
- The image identifier and the page records are in different object stores, so their transactions are
  not ordered with respect to each other. A page committed without the identifier is read as part of
  whichever image boots next (`Sessions.OutOfOrderMixes`; exactly when, `Sessions.PureExactly`).
- The park of a quiescent guest looks at the console queue only: it can park over an announced input
  record, without a timer (`Wake.QuiescentParkHolds`; exactly when, `Wake.ParksOverRecordExactly`).
- An argument survives exec exactly when it is UTF-8, does not start with a byte-order mark and has at
  most 4096 bytes; one of 4097 or 4098 bytes does too if it ends in U+FFFD, which is what the decoder
  makes of that character's own cut bytes (`Argv.SurvivesExactly`, `Argv.ArgvSurvives`).
- An exec whose instantiation fails half way is answered with an error, and what it had replaced stays
  replaced: the copy of the old instance saved at `docs/host.js:485` is never read. The suspended caller
  is intact exactly when nothing had been replaced (`Transparency.TornExecExactly`).
- A fork that finds no memory for the clone has already dropped the record of the exited process whose
  slot it was to reuse (`Transparency.ForkRefused`).
- A file's inode number past the superblock's count cannot be read back, and names are compared by
  their first 59 bytes (`MinixTheorem.FilesReadBack`).
- The archive writer turns a block device or a socket into a directory and a symbolic link into a
  character device (`Cpio.TypeKeptExactly`).
- In the `cc` wrapper's link walk `-rdynamic` is dropped with the other driver flags: it is in the table
  at `tools/cc-dso-minix.py:80`, so the branch at line 312 that would translate it is never reached
  (`CcScan.RdynamicDropped`). The linker is told to export its symbols exactly when a `-Wl` list or a
  link option says so in the linker's own words (`CcScan.ExportedExactly`).
- The comment at `tools/cc-dso-minix.py:68` says a library or path option does not reach the compiler;
  one joined to its value does, and reaches the linker as well (`CcScan.CompileFlagsStay`).
- The wrapper names an object by its source's stem, so two sources of one name in two directories are
  linked as one (`CcScan.EverySourceLinked`, `CcScan.OneObject`).
- The kernel's deadlock check starts behind the destination, so a call that names its own caller is not
  refused and, unless a reply mark or a pending notification lets it through, waits for itself until the
  process is cleared away. Exactly these calls lead to a cycle (`IpcDeadlock.AcyclicExactly`, `IpcDeadlock.SelfLockLasts`).
- Clearing an endpoint stores the slot's flags before it looks whether the process is blocked sending
  (`crates/kernel/src/system.rs:1769-1772`), so one that is stays in its destination's queue. The queues
  are exact if and only if that never happened (`IpcRuns.QueuesExactly`).
- Receiving from a process that is gone, with nothing pending, is not refused: it is the one call after
  which somebody waits for a dead process (`IpcExit.GravesExactly`).
- A send-and-receive whose send half is refused leaves its caller marked as waiting for a reply; the
  partner of its last receive, process 0 if there was none, can then deliver to it although it is not
  receiving (`IpcReplies.StaleExactly`, `IpcReplies.MarksExactly`, `IpcReplies.StaleMarkTakesMessage`).
- `tools/pt_walk_probe.py:114` speaks of 128 GiB; 256 entries of 512 GiB are 128 TiB, which is the bound
  the search is proved for.

## Model

| member | source | states |
|---|---|---|
| `Transparency.SlicingIsTransparent` | docs/host.js:795-1037 | for every kernel, guests, slice limits and outside events, in every state a session reaches: the calls the kernel got in a process's name are those an uninterrupted execution issues, once each and in program order, the values it handed out are those that execution received, the other host imports called in its name are those it calls, a suspended process has that execution's memory and next call, and the process table is sound |
| `Slices.CutsCompose` | docs/host.js:795-903 | a dispatch cut by the slice and rewound later equals one uncut dispatch: same kernel, memories, records and books |
| `Slices.BudgetIsConserved` | docs/host.js:826-863 | over every session spin is at most used, used at most the limit, and budget left plus syscalls delivered is the initial budget |
| `Slices.PumpProgresses` | docs/host.js:982-1037 | with a positive limit and something runnable each pump delivers a syscall, retires a process or reports a stop |
| `Transparency.DispatchKeeps` | docs/host.js:982-1037 | one dispatch keeps every record faithful to its uninterrupted execution, whatever ends it |
| `Transparency.GateKeeps` | docs/host.js:795-889 | the gate keeps both sides' books in agreement: a yielded call is delivered on its replay, a resumed or blocked one is never delivered again |
| `Transparency.ServeKeeps` | docs/host.js:413-602 | copies, forks and execs the kernel asks for keep every process faithful and the table one-to-one |
| `Transparency.BootIsSound` | docs/host.js:931-937 | the state brought up is sound exactly when the specs name each slot once |
| `Transparency.ForkRefused` | docs/host.js:502-535 | a fork is refused exactly for an unknown parent or a live child slot, and then nothing changes; without memory for the clone it changes nothing exactly when the child's slot had no dead record |
| `Transparency.ForkTwins` | docs/host.js:578-602 | the child of a fork that succeeds is the parent over its whole memory, suspension, arguments and books |
| `Transparency.ForkFrame` | docs/host.js:502-575 | however it ends, a fork changes no other process |
| `Transparency.TornExecExactly` | docs/host.js:484-494 | an exec that fails half way leaves a suspended process faithful exactly when it had replaced nothing |
| `Transparency.TwinsDifferOnlyInValue` | docs/host.js:502-602 | parent and child of a fork in a blocking call take the same turn on the same value; only what the kernel returns to each slot tells them apart |
| `Transparency.LiveSlotsStand` | docs/host.js:502-651 | no request of the kernel overwrites a live process, save an exec of that very slot |
| `Transparency.CloneIsExact` | docs/host.js:578-602 | the clone's memory is the parent's, byte for byte |
| `Host.Process.constructor` | docs/host.js:674-700 | a new record with a memory of its own |
| `Host.Process.Clone` | docs/host.js:578-602 | a record equal to the parent's, in a fresh memory grown to the parent's size |
| `Host.Process.Replace` | docs/host.js:610-651 | the record runs another module in a fresh memory, with nothing pending |
| `Host.ProcessTable.Install` | docs/host.js:931-937 | list and table stay in one-to-one correspondence, every record in a memory made for its slot |
| `Host.ProcessTable.NothingShared` | docs/host.js:610-613 | no two processes of a valid table share a record or a memory |
| `Host.ProcessTable.IndexOf` | docs/host.js:502-575 | the place of the slot's record in the list |
| `Host.ProcessTable.Drop` | docs/host.js:502-575 | the slot's record leaves both the list and the table |
| `Host.ProcessTable.Fork` | docs/host.js:502-602 | the two tables change as the fork's specification says, and stay paired |
| `Host.ProcessTable.Adopt` | docs/host.js:578-602 | the clone is the parent's value at that moment, under a new slot and in a fresh memory |
| `Host.ProcessTable.Poke` | docs/host.js:422-422 | the bytes land in one process's memory and no other moves |
| `Host.ProcessTable.Exec` | docs/host.js:432-494 | the same record, replaced image, with the error cases in the source's order |
| `Host.ProcessTable.Tear` | docs/host.js:610-650 | an instantiation that fails leaves what it replaced, and the table is still valid |
| `Dispatcher.Host.constructor` | docs/host.js:931-937 | the table brought up is the one of the specs, valid |
| `Dispatcher.Host.CopyAcross` | docs/host.js:413-428 | a copy between two processes, or a fault that changes nothing |
| `Dispatcher.Host.Forks` | docs/host.js:502-575 | a fork on the table is the specified one, books included |
| `Dispatcher.Host.Execs` | docs/host.js:432-494 | an exec on the table is the specified one, books included |
| `Dispatcher.Host.Settle` | docs/host.js:413-602 | serving the kernel's requests by the table's own operations until it has none is the specified settling, and the table stays valid |
| `Dispatcher.Host.Syscall` | docs/host.js:795-889 | the gate on the mutable records computes the specified gate |
| `Dispatcher.Host.Ask` | docs/host.js:826-889 | refusing, putting off or delivering a call, with the counters of slice and budget |
| `Dispatcher.Host.RunProcess` | docs/host.js:895-903 | rewinding or starting a process computes the specified run |
| `Dispatcher.Host.Continue` | docs/host.js:710-795 | a guest that is answered runs on to its next call, and what it pulled has happened to the machine |
| `Dispatcher.Host.Follow` | docs/host.js:895-903 | following a guest to its next stop computes the specified drive |
| `Dispatcher.Host.Stop` | docs/host.js:1000-1021 | off the end of the entry, an exit by trap and a fault told apart |
| `Dispatcher.Host.Dispatch` | docs/host.js:995-1035 | one dispatch and the pump's decision after it, an exit by trap skipping the slice checks |
| `Dispatcher.Host.Pump` | docs/host.js:982-1037 | the pump's loop computes the specified pump and its reason, and keeps list, table and memories in correspondence throughout |
| `Store.SettledPageSurvives` | docs/store.js:74-144 | whichever transactions were committed, a page no write touched, or whose last transaction was, reopens as memory had it |
| `Store.CrashConsistent` | docs/store.js:74-144 | after any prefix of k commits, reopening gives the disk after k writes, partial last page included |
| `Store.WrittenIsTouched` | docs/store.js:127-144 | every byte a write changes is in a page it puts a record for |
| `Store.LastWriteWins` | docs/store.js:127-144 | the disk is a byte array: the last write over a byte decides it |
| `Sessions.DisksNeverMix` | docs/host.js:231-268 | over any sequence of sessions booting any images, with in-order commits, every stored page was written under the identifier on record |
| `Sessions.PureExactly` | docs/host.js:231-243 | whatever was committed, a session keeps that so exactly when the identifier was on record, or committed, or no record was |
| `Sessions.OutOfOrderMixes` | docs/store.js:101-107 | without the order, a page of one image is read as part of another |
| `Sessions.Resumes` | docs/store.js:74-95 | booting the image again resumes the disk as the committed writes left it |
| `Sessions.DiskHistory` | docs/store.js:74-144 | over any in-order history the disk an image finds is that image with all committed writes of its own sessions, in order, and nothing else |
| `Sessions.RebuiltImageRefused` | docs/host.js:231-242 | an image of another length or with one byte changed is refused and changes nothing |
| `ImageId.Identify` | docs/host.js:216-223 | the loop computes length, colon, hash |
| `ImageId.MixInjective` | docs/host.js:216-223 | each hash step is injective in the state and in the byte, modulo 2^32 |
| `ImageId.DifferentImagesDiffer` | docs/host.js:216-223 | images of different length, or of equal length differing in exactly one byte, never share an identifier |
| `DiskStore.DiskStore.constructor` | docs/store.js:74-95 | opening lays every stored record over the image in key order, whatever its length, as far as the disk goes |
| `DiskStore.LaidWhole` | docs/store.js:74-95 | with records of one page each the order does not matter: every page is its record's or the image's |
| `DiskStore.DiskStore.Write` | docs/store.js:127-144 | the disk changes as a byte array does, and one transaction with exactly the touched pages is sent |
| `DiskStore.DiskStore.MakeRecords` | docs/store.js:132-142 | one zero-padded record for every page touched, and no other |
| `DiskStore.DiskStore.Read` | docs/store.js:108-110 | a slice of the disk, clipped at its end |
| `DiskStore.DiskStore.SetImageId` | docs/store.js:101-107 | the identifier is set and sent as a transaction of its own |
| `DiskStore.SentIsDurable` | docs/store.js:127-144 | committing what the store sent is what the crash theorems speak of |
| `DiskStore.Attach` | docs/host.js:231-245 | a device exactly when the store names no image or this one; an unnamed store takes this one's identifier |
| `DiskStore.Device.ReadInto` | docs/host.js:249-257 | short at the end of the device, nothing past it, and the counters |
| `DiskStore.Device.WriteFrom` | docs/host.js:259-266 | short at the end of the device, nothing past it, and the counters |
| `MinixTheorem.Build` | tools/mkminixfs.rs:390-456 | an image exactly when the requests fit, laid out as the tree they describe, with both bitmaps exact |
| `MinixTheorem.FilesReadBack` | tools/mkminixfs.rs:183-387 | from the finished bytes alone each file is recovered exactly when its inode is admitted, and its name leads to it exactly when no earlier request stored the same name there, whatever came after |
| `MinixTheorem.RequestsFound` | tools/mkminixfs.rs:240-280 | the same of every name, file or directory, in its directory |
| `MinixTheorem.PathsReadBack` | tools/mkminixfs.rs:390-456 | from inode 1 the path through a directory leads to a file in it, with the file's bytes, exactly when its name is new there |
| `MinixTheorem.NodeOfRequest` | tools/mkminixfs.rs:205-323 | later requests do not move or change what an earlier one made |
| `MinixTheorem.EntriesComeFrom` | tools/mkminixfs.rs:240-280 | every directory entry is the directory itself, its parent, or one that was asked for, under the inode it was given |
| `MinixTheorem.Perform` | tools/mkminixfs.rs:205-323 | one request succeeds exactly when it fits and then grows the tree by it |
| `MinixRead.ReadBack` | tools/mkminixfs.rs:283-387 | a reader of superblock, inode table, direct and indirect zones recovers every admitted node's contents |
| `MinixRead.LookupBack` | tools/mkminixfs.rs:240-280 | looking a name up in a directory finds the first entry stored under it |
| `MinixRead.FoundIff` | tools/mkminixfs.rs:240-280 | an entry is found under its stored name exactly when no earlier entry stores the same |
| `MinixImage.FsImage.constructor` | tools/mkminixfs.rs:117-154 | bitmaps and inode table tile the blocks up to the first data zone; all is zero and free |
| `MinixImage.FsImage.AllocZone` | tools/mkminixfs.rs:168-173 | the next zone, and its bit is the one newly set |
| `MinixImage.FsImage.AllocInode` | tools/mkminixfs.rs:175-181 | the next inode and its bit, exactly while the inode map has room |
| `MinixImage.FsImage.WriteZone` | tools/mkminixfs.rs:183-193 | one zone's bytes and no other's, exactly when they lie inside the image |
| `MinixImage.FsImage.AddDirent` | tools/mkminixfs.rs:240-280 | the entry goes in the first free slot, exactly when the directory has one, and the directory's inode grows by it |
| `MinixImage.FsImage.StoreFile` | tools/mkminixfs.rs:283-323 | the file's blocks, direct map and indirect block are those of the layout |
| `MinixImage.FsImage.AddFile` | tools/mkminixfs.rs:283-323 | succeeds exactly when the file fits, and the image then holds the tree with it |
| `MinixImage.FsImage.CreateRoot` | tools/mkminixfs.rs:205-237 | the image holds the tree with the root alone |
| `MinixImage.FsImage.MakeDirectory` | tools/mkminixfs.rs:413-456 | succeeds exactly when it fits, and the image then holds the tree with the directory |
| `MinixImage.FsImage.Finalise` | tools/mkminixfs.rs:326-387 | the finished bytes are the image of the tree, inode and zone bits are set exactly for what was allocated plus bit 0 of the zone map |
| `MinixBuild.RepMore` | tools/mkminixfs.rs:283-323 | a node laid in fresh zones leaves every earlier node and all unallocated zones as they were |
| `MinixBuild.RepEntry` | tools/mkminixfs.rs:240-280 | a new directory entry changes bytes and inode table together and nothing else |
| `Bitmap.StoredReads` | tools/mkminixfs.rs:156-166 | a bitmap stored as bytes tests as it did |
| `IpcDeadlock.AcyclicExactly` | crates/kernel/src/ipc.rs:338-858 | from a table without cycles a call leads to one exactly when it leaves its caller waiting for itself: a send to oneself that no mark takes, a send-and-receive with oneself with no pending notification to take, a receive from oneself with none |
| `IpcDeadlock.DeadlockFreeExactly` | crates/kernel/src/ipc.rs:338-858 | a run never has a cycle of waits, at any point, if and only if no call of it locked its own caller |
| `IpcDeadlock.NeverDeadlocked` | crates/kernel/src/ipc.rs:338-858 | then no process ever waits for itself through any number of others |
| `IpcDeadlock.SomebodyRuns` | crates/kernel/src/ipc.rs:338-858 | and there is always a process that waits for no other |
| `IpcDeadlock.SelfLockLasts` | crates/kernel/src/ipc.rs:823-858 | a process that waits for itself does so until it is cleared away |
| `IpcDeadlock.ChaseExact` | crates/kernel/src/ipc.rs:823-858 | the walk bounded by the number of processes is long enough: it finds the caller exactly when the destination waits for it, save a sender and receiver pair |
| `IpcDeadlock.DeadlockExact` | crates/kernel/src/ipc.rs:823-858 | the check, from its start, refuses exactly the waits that would close a cycle, save that pair |
| `IpcDeadlock.SendRefusedExactly` | crates/kernel/src/ipc.rs:338-520 | a send is refused as a deadlock exactly when its destination is not receiving from the caller and waits for it |
| `IpcDeadlock.ReceiveRefusedExactly` | crates/kernel/src/ipc.rs:528-724 | a receive is refused exactly when there is nothing to take and its source waits for the caller |
| `IpcDeadlock.BlockWhileSending` | crates/kernel/src/ipc.rs:696-724 | the receive half of a send-and-receive whose message is queued is never refused |
| `IpcRuns.StepForms` | crates/kernel/src/ipc.rs:1043-1116 | every call, whoever it names, keeps each queue sound and the blocking states well formed |
| `IpcRuns.QueuesExactly` | crates/kernel/src/system.rs:1715-1787 | over every run the queues hold exactly the processes blocked sending if and only if nobody was cleared away while blocked sending |
| `IpcRuns.ClearExactly` | crates/kernel/src/system.rs:1761-1787 | clearing a process keeps the queues exact exactly when it was not blocked sending |
| `IpcRuns.ClearEndsWaits` | crates/kernel/src/system.rs:1797-1834 | clearing a process ends its own wait and every wait for it, and no other |
| `IpcExit.GravesExactly` | crates/kernel/src/ipc.rs:528-724 | nobody waits for a dead process, until one with nothing pending asks to receive from it |
| `Ipc.EnqueueKeeps` | crates/kernel/src/ipc.rs:494-519 | a queue holds exactly the processes blocked sending to its owner, after one joins |
| `Ipc.DequeueKeeps` | crates/kernel/src/ipc.rs:634-690 | and after one's message is taken |
| `IpcDelivery.ExactlyOnce` | crates/kernel/src/ipc.rs:338-724 | over every run, between any two processes, the messages accepted are those delivered, once each and in order, those lost when an endpoint was cleared, and the one its sender is blocked on |
| `IpcReplies.StaleExactly` | crates/kernel/src/ipc.rs:1079-1102 | a call leaves a process marked as waiting for a reply without receiving exactly when it is a send-and-receive whose send half is refused |
| `IpcReplies.MarksExactly` | crates/kernel/src/ipc.rs:1079-1102 | over every run no process is so marked if and only if no send half was refused |
| `IpcReplies.OnlyReceiversAreHanded` | crates/kernel/src/ipc.rs:122-164 | and then a message is handed only to a process blocked in a receive that wants it |
| `IpcReplies.StaleMarkTakesMessage` | crates/kernel/src/ipc.rs:143-164 | otherwise one refused first call is enough for process 0 to hand its next message to a process that is not receiving |
| `KernelTable.Table.Deadlocked` | crates/kernel/src/ipc.rs:823-858 | the bounded loop computes the specified check |
| `KernelTable.Table.Send` | crates/kernel/src/ipc.rs:338-520 | delivery, refusal or blocking, as specified |
| `KernelTable.Table.Receive` | crates/kernel/src/ipc.rs:528-724 | a pending notification, the first wanted message of the queue, or blocking |
| `KernelTable.Table.Notify` | crates/kernel/src/ipc.rs:742-821 | a waiting receiver is woken or the notification is left pending |
| `KernelTable.Table.Bury` | crates/kernel/src/system.rs:1761-1787 | the endpoint is cleared as specified, its own state and everyone's reference to it |
| `KernelTable.Table.Call` | crates/kernel/src/ipc.rs:1043-1116 | one call computes the specified step and keeps the table well formed, whoever it names |
| `Cpio.RoundTrip` | tools/mkinitramfs.rs:72-141 | a reader gets back every entry with inode, normalised mode, owner, device, name and data, all of them exactly when none is named like the trailer |
| `Cpio.EverythingAligned` | tools/mkinitramfs.rs:325-376 | every header and every data block starts at a multiple of four, where the reader expects it |
| `Cpio.TypeKeptExactly` | tools/mkinitramfs.rs:336-342 | the file type survives exactly for directories, character devices and regular files |
| `Cpio.Pack` | tools/mkinitramfs.rs:325-376 | writing entries one after another, with the trailer, gives the archive |
| `Cpio.Archive.WriteEntry` | tools/mkinitramfs.rs:325-376 | header, name, padding, data, padding; on an aligned archive the entry is as on its own |
| `Cpio.Archive.Pad` | tools/mkinitramfs.rs:365-375 | zeros up to the next multiple of four |
| `Cpio.LookupFindsFirst` | crates/kernel/src/initramfs.rs:81-125 | in every archive the writer makes the kernel finds a path exactly when an entry before the trailer, and before a name that is not UTF-8, has it, and gets the first one's bytes and mode |
| `Cpio.EveryNameFound` | crates/kernel/src/initramfs.rs:81-125 | with names in UTF-8, as the writer takes them, every entry is found under its name cut at the first NUL, the first of each |
| `Cpio.FindFile` | crates/kernel/src/initramfs.rs:81-125 | the kernel's loop computes the specified lookup, on any bytes |
| `Cpio.FieldValueHex` | tools/mkinitramfs.rs:123-128 | an eight-digit field reads back as the 32-bit number written |
| `PageWalk.FramesIn` | tools/dso_share_probe.py:360-379 | over a window inside one 2 MiB region, exactly the pages and frames the pointwise walk finds present |
| `PageWalk.LeafTable` | tools/dso_share_probe.py:336-349 | the loop over the levels computes the leaf table, stopping at absent and huge entries |
| `PageWalk.SameTable` | tools/dso_share_probe.py:336-349 | addresses of one region have one leaf table |
| `PageWalk.WalkPageTable` | tools/pt_walk_probe.py:111-143 | true exactly when some user address below 2^47 has a present 4 KiB leaf with that frame |
| `PageWalk.MappedIffHits` | tools/pt_walk_probe.py:111-143 | the search by tables and the search by addresses agree |
| `PageWalk.WalkPt` | tools/pt_walk_probe.py:136-142 | one leaf table searched to the end |
| `Deps.Search.Visit` | tools/llvm-config-minix.rs:80-95 | terminates on any graph; writes exactly what it newly marks, all reachable, each after its dependencies save those leading back to it |
| `Deps.ComputeLibs` | tools/llvm-config-minix.rs:77-108 | exactly the names reachable from the request, once each, every name before a dependency that does not lead back to it |
| `Deps.TopologicalIffAcyclic` | tools/llvm-config-minix.rs:77-108 | every component stands before all its dependencies exactly when there is no cycle |
| `Deps.Libs` | tools/llvm-config-minix.rs:171-189 | one archive per reachable component that has a library, in the same order |
| `Deps.KeptInOrder` | tools/llvm-config-minix.rs:178-188 | the filter keeps the order both ways |
| `CcScan.ScannersAgree` | tools/cc-dso-minix.py:260-343 | without a bare `-Wl` the link walk takes for inputs exactly the tokens the classifier calls inputs, in order |
| `CcScan.BareWlExactly` | tools/cc-dso-minix.py:276-284 | after a bare `-Wl` from which both go on at the same token, they agree exactly when the token it takes apart is not an input |
| `CcScan.ClassesPartition` | tools/cc-dso-minix.py:136-170 | every token of the line is in exactly one class |
| `CcScan.Classify` | tools/cc-dso-minix.py:136-170 | the loop's lists are the tokens of each class in order, and the last output name |
| `CcScan.RdynamicDropped` | tools/cc-dso-minix.py:307-315 | `-rdynamic` gives the linker nothing |
| `CcScan.ExportedExactly` | tools/cc-dso-minix.py:260-343 | `--export-dynamic` reaches the linker exactly from a part of a `-Wl` list, the value after one, or the value of a link option |
| `CcScan.CompileFlagsStay` | tools/cc-dso-minix.py:136-170 | a compiler flag gives the linker nothing, save a path or library joined to its option |
| `CcScan.BracketsReach` | tools/cc-dso-minix.py:243-252 | in a whole link, shared or not, archives reach the linker between their whole-archive options, after what came before them and before what came after |
| `CcScan.EverySourceLinked` | tools/cc-dso-minix.py:327-336 | every source's code is in the object the line names for it exactly when no two sources have one stem |
| `CcScan.OneObject` | tools/cc-dso-minix.py:331-331 | files of one name in two directories never are |
| `CcScan.Walk` | tools/cc-dso-minix.py:254-343 | what the linker is given, whether it is a shared object, and every source compiled once; nothing exactly when a source does not compile or a bare `-Wl` ends the line |
| `Wake.NoLostWakeUp` | docs/page.js:154-228 | for every kernel and guests, over every interleaving of events and pumps, a parked loop has an empty console queue, a sent record is announced, and the idle park never happens with one waiting |
| `Wake.LoopReads` | docs/host.js:982-1037 | whatever ends it, a pump of the engine only reads the queues, and ends a slice with syscalls left only when both are quiet |
| `Wake.CutIsIdle` | docs/host.js:1027-1034 | so the spin-only cut never happens while a record the guest was told of waits |
| `Wake.ParksOverRecordExactly` | docs/page.js:200-206 | a turn parks over a waiting record exactly when nothing was runnable at its end, the console was empty and the guest had not halted |
| `Wake.QuiescentParkHolds` | docs/page.js:200-206 | and that happens, without a timer |
| `Wake.SleepsOverRecord` | docs/page.js:154-206 | the shortest such run, from a page just brought up |
| `Wake.InputConserved` | docs/host.js:360-395 | what the guest has had and what still waits is everything typed and every record sent, in order |
| `Page.HeldIsDown` | docs/page.js:455-480 | the page holds a button exactly when the guest was last told it is down; after the pointer leaves, none is |
| `Page.Page.Send` | docs/page.js:362-365 | the bytes are queued and a parked loop is woken |
| `Page.Page.SendInput` | docs/page.js:425-428 | the record is queued and announced and a parked loop is woken |
| `Page.Page.Enqueue` | docs/host.js:386-388 | the record is queued and nobody is told |
| `Page.Page.Timer` | docs/page.js:154-166 | a timed park ends, an untimed one does not |
| `Page.Page.ConsoleRead` | docs/host.js:911-911 | the next byte typed, or none |
| `Page.Page.InputRead` | docs/host.js:759-772 | the next record, or none, which ends the announcement |
| `Page.Page.StartsOver` | docs/page.js:312-317 | the loop stops before its next turn |
| `Page.Page.Turns` | docs/page.js:184-228 | one turn of the page's loop over the engine's pump: stopping, halt, the reasons that end it, parking |
| `Page.Page.SendButton` | docs/page.js:457-467 | a known button's record is sent and the set of held ones follows it |
| `Page.Page.PointerLeaves` | docs/page.js:477-480 | every held button is released |
| `Argv.ArgvSurvives` | docs/host.js:454-460 | from the kernel's packed strings to the new image's memory: the program finds what was unpacked, which is the list given exactly when every argument survives |
| `Argv.SurvivesExactly` | docs/host.js:146-152 | a string comes through the scan, the decoder and the encoder as it was exactly when it is UTF-8 without a leading mark and within 4096 bytes, or cut inside a final U+FFFD |
| `Utf8.RecodeExactly` | docs/host.js:136-140 | decoding and encoding give a string back exactly when it is UTF-8 and does not start with the mark |
| `Utf8.DecodeEncode` | docs/host.js:136-140 | decoding undoes encoding |
| `Utf8.CutExactly` | docs/host.js:146-152 | a text cut short decodes to the whole text exactly when it ends in a replacement and the cut is inside it |
| `Utf8.WellFormedExactly` | crates/kernel/src/initramfs.rs:99-99 | text is UTF-8 exactly when decoding loses nothing of it |
| `Argv.UnpackExactly` | docs/host.js:454-460 | unpacking gives the list back exactly under that condition |
| `Argv.BlockReadsBack` | docs/host.js:658-672 | in zeroed memory, following each pointer to its terminator gives the list written |
| `Argv.CString` | docs/host.js:146-152 | the bounded scan stops at the first NUL, the bound or the end of memory |
| `Argv.WriteArgv` | docs/host.js:658-672 | count, pointers and strings, in place |
| `Argv.Unpack` | docs/host.js:454-460 | the loop over the packed strings |
| `Terminal.BoundedRefines` | docs/terminal.js:25-55 | after any bytes the lines are the last of the unbounded transcript and the cursor is inside the line |
| `Terminal.RedrawExact` | docs/terminal.js:25-55 | a redraw commits exactly the trimmed text if and only if what sticks out beyond 79 columns and the text is white, always on lines of at most 79 columns |
| `Terminal.Console.Write` | docs/terminal.js:34-55 | the object shows what the bounded specification shows |
| `Checksum.FieldVerifies` | docs/net.js:44-51 | a message with its checksum in an even, formerly zero field checks to zero, odd lengths included |
| `Checksum.InetChecksum` | docs/net.js:44-51 | the loop with signed 32-bit shifts computes the internet checksum, since the sum stays below 2^31 |
| `Checksum.Csum` | tools/udp_checksum_check.py:5-13 | the zero-padding reference computes the same on any number of bytes |
| `Net.EchoAnswerVerifies` | docs/net.js:127-170 | every echo reply verifies in header and message, with addresses swapped and all other bytes kept |
| `Net.ArpResolves` | docs/net.js:92-123 | a host that asks as RFC 826 says learns the gateway's hardware address exactly when it asks for the gateway's address, and no other host learns anything |
| `Net.FragmentsAreAnswered` | docs/net.js:127-136 | flags and fragment offset are never looked at |
| `Net.AnswersAreNotAnswered` | docs/net.js:92-170 | no answer is itself a request |
| `Net.FramesAreCounted` | docs/net.js:92-194 | over any run frames sent are ARP replies plus ICMP replies plus unanswered |
| `Net.RepliesInOrder` | docs/net.js:176-194 | over any run replies made are replies taken, in order, and replies waiting |
| `Gateway.MakeEchoReply` | docs/net.js:143-165 | the reply built in place is the specified one |
| `Gateway.Link.AnswerArp` | docs/net.js:92-123 | answered exactly for a request for the gateway's address |
| `Gateway.Link.AnswerIcmp` | docs/net.js:127-170 | answered exactly for a whole echo request to the gateway; requests are counted before the length is checked |
| `Gateway.Link.Send` | docs/net.js:186-194 | one frame answered or counted |
| `Gateway.Link.Recv` | docs/net.js:178-184 | the front frame, gone even when it does not fit |
| `Gateway.WebSocketLink.OnMessage` | docs/net.js:214-224 | at most 256 frames wait; every arrival is queued or counted as dropped |
| `Gateway.WebSocketLink.Recv` | docs/net.js:234-240 | frames are taken in order of arrival |
| `Gateway.WebSocketLink.Send` | docs/net.js:241-247 | a socket that is not open refuses the frame |

## Left out

- The WebAssembly engine and Asyncify: an unwind saves the guest at its call of the gate and a rewind re-enters that call without running anything else again.
- Transparency.SlicingIsTransparent: assumes the kernel forks and replaces only other processes than the one whose call it is handling, that a syscall makes finitely many host requests, and that no exec is torn; `Transparency.TornExecExactly` says what a torn one does.
- Transparency.ServeKeeps: under the same assumptions on the request.
- A pump after a trap or an exhausted budget: the page stops there, and so do the sessions of the model.
- Host.Process.constructor: the scratch region of Asyncify, and growing the memory to hold it, are part of the module's initial memory.
- Host.ProcessTable.Fork: whether the browser has memory for the clone is a parameter, and the log of forks is not kept.
- Host.ProcessTable.Exec: how instantiating ends is a parameter; a range of the image outside its memory, which throws, is not modelled.
- Dispatcher.Host.constructor: requires that the specs name each slot once; `Transparency.BootIsSound` says that otherwise the table is not sound.
- IndexedDB, Web Locks, the DOM, canvas and sockets: they appear as committed transactions, events and byte queues; the Node file store is not modelled.
- The identifier separates images of different length or differing in one byte; that two images may collide otherwise is inherent to a 32-bit hash.
- MinixTheorem.Build: block and inode counts are bounded so that block numbers fit 32 bits, and there is at least one inode, as the tool's own arguments have it; panics of the tool are the None results.
- Device numbers, fixed file lists and host file reading in the two image builders' `main`.
- The size limit on the archive embedded in the kernel.
- KernelTable.Table.Send: threads of one process, a message that cannot be copied and messages the kernel itself builds are not modelled.
- KernelTable.Table.Receive: asynchronous messages, threads and the non-blocking flag are not modelled.
- KernelTable.Table.Notify: pending bits are kept per process, where the source keeps them per privilege structure.
- KernelTable.Table.Bury: the process's threads and asynchronous messages are not modelled, and a cleared slot is not handed to a new process.
- KernelTable.Table.Call: trap masks, send permissions and the scheduling queues are not modelled.
- CcScan.EverySourceLinked: a stem is what `pathlib` takes it to be up to Python 3.13.
- CcScan.Walk: the start file, the runtime and the library the command ends with, and the expansion for linker probes without inputs, are not modelled.
- Wake.NoLostWakeUp: raising a line may change the kernel in any way but does not touch the queues; what a kernel that was woken then does is its own.
- `tools/dso_share_probe.py` and `tools/pt_walk_probe.py` outside the walks: process control, symbols and timing.
- The other crates, servers, drivers and build scripts, some five hundred files, have not been modelled: the project keeps to the algorithms whose contract is visible in the files cited.
