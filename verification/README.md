# NekOS: a verified model

NekOS is a small RISC-V operating system: a kernel with a round-robin scheduler, synchronous messages between tasks,
Sv39 address spaces and a page allocator; a file server that keeps a FAT32 file system on a ramdisk; a C library with a
first-fit heap; and a build script that puts the programs into a cpio archive, which the kernel reads at boot. This
project models these parts in Dafny 4.11, with the constants, branches, bounds and error cases of the source, and
proves what they keep, what they undo and what they leave alone. `dafny verify dfyconfig.toml` checks all of it.

## How it is built

Code that changes things in place is modelled as classes whose methods have the source's loops, and each method is
proved against functions and predicates on plain values; the theorems are lemmas about those. Long-running claims are
lemmas by induction over runs.

| files | what they hold |
|---|---|
| `tasks.dfy`, `sched.dfy`, `ipc.dfy` | the task manager's state as a value, its invariant, what each system call does to it |
| `traps.dfy`, `histories.dfy`, `delivery.dfy` | every trap as one step, runs of traps, what has been called, delivered and answered in a run |
| `registers.dfy`, `resuming.dfy` | what one trap does to the registers and memory of every task, field by field; what a task finds when it goes on, in every run |
| `lives.dfy`, `wakeups.dfy`, `start.dfy` | what becomes of tasks in a run, which sleepers can run again, and the state every run starts in |
| `kernel.dfy`, `msgqueue.dfy` | the `TaskManager` and the message ring themselves, over arrays |
| `fat.dfy`, `fat32.dfy` | the allocation table as chains; the file system over one byte array |
| `dirslots.dfy`, `directory.dfy`, `dirmap.dfy` | directory slots and names; searching, creating and deleting; directories as maps |
| `page.dfy`, `pgtable.dfy`, `mmu.dfy` | the page bitmap; page tables as trees that stand for a map; the operations on them |
| `aspace.dfy`, `memory.dfy` | who owns which page; what user programs read, write and share |
| `processor.dfy` | the processor's own walk through the tables, bit by bit: what it lets user programs reach, and that it finds the program that was loaded |
| `placement.dfy`, `heapmoves.dfy`, `teardown.dfy`, `duplication.dfy`, `programs.dfy`, `elf.dfy` | what growing, freeing, forking and loading do to the pages |
| `runs.dfy` | runs of stores, heap moves, forks, loads and endings, and what holds over them |
| `spaces.dfy` | `sbrk`, `fork`, `spawn`, `exec`, reaping and the grant of the serial port, over the allocator and the tables; each is proved to be a step of such runs |
| `malloc.dfy` | the C library's heap, headers and payloads in the same bytes |
| `newc.dfy`, `initrd.dfy` | the cpio writer and reader |

## What the code does that one might not expect

The properties are stated around these, and where a claim fails there is a lemma with the case or the exact condition.

- `write_file` does not read a sector before writing it from its start, so the rest of that sector becomes zero (`user/programs/fs-server/src/main.rs:524-545`; `Fat32.WrittenBytes`).
- An 8.3 name that ends with a dot is listed without it, and so cannot be found again (`DirSlots.ListedAs`).
- `delete_dir_entry` sets the number of long-name slots to zero before it looks at it, so these slots stay (`main.rs:1045`, `main.rs:1076`); a short entry that later takes the slot behind them is listed under the old long name (`DirSlots.Creating`), and they can lengthen a new name that has no terminator (`DirSlots.LongNameReadBack`).
- A name that does not fit behind a sector's first end mark goes to a later sector, which the walk never reaches (`DirMap.LongNameListed`). A name of more than 195 characters needs more than 16 slots and never fits, and looking for room for it takes every free cluster (`Directory.CreateDirEntry`).
- `ipc_recv` can take the buffered message and leave the flag set, after which calls with a buffer are refused unless the owner waits (`Histories.FlagLeftSet`, `Histories.FlagRefuses`).
- `ipc_call` wakes an owner that waits with a buffer without setting a5, and leaves the buffer's address in the endpoint (`Histories.CallLeavesAddress`).
- `ipc_reply_buf` writes the client's registers and the first bytes before it finds that a page is missing; the client sleeps on with them, and a5 now holds the length, which the next buffered answer takes for the client's address (`Registers.ReplyBufReturns`).
- `ipc_reply` accepts a client whose message is still queued (`Histories.ReplyToQueued`; two traps after starting up in `Start.EarlyReply`), so exactly-once answers hold if and only if the servers receive and then reply to that client (`Histories.AlwaysOnce`).
- `exit_current` leaves endpoints alone: a caller of an owner that has exited sleeps for ever, and further calls to it are accepted (`Wakeups.CallerOfDead`, `Wakeups.CallToDead`). Owners that call each other's endpoints sleep for ever as well, both alive (`Start.ServersLocked`). Exactly which sleepers can run again is `Wakeups.ReturnsExactly`.
- `exit_current` starts its scan at slot 0, and can so set a ready task back (`Delivery.ExitStep`); the waiting bound grows with each exit (`Delivery.ChosenInTime`). `fork` uses up a pid when the table is full.
- `fat_set` writes all four bytes of an entry, so the top four bits, which the FAT specification of Microsoft (fatgen103, "FAT Data Structure") reserves and asks to be preserved, become zero (`main.rs:207-209`; `Fat32.Fs.FatSet`).
- `translate_user` and the copies of the buffered messages go by the valid bit and not by the user bit, and every user table maps the kernel's memory; so the name given to `exec` and the buffers given to the kernel can name any page of kernel memory, also another task's (`Memories.TranslatedPage`, `Memories.TranslatedOther`).
- A program whose image spans a device's address can never fork: the copying loop finds the kernel's mapping there, and cannot map the page again in the child (`Spaces.AddressSpaces.Fork`, `Duplication.ClashIs`).
- A segment that may be written and not read gets entries of the kind that the RISC-V Privileged Architecture reserves, so every access to it traps (`Processor.ProgramThere`).
- The serial port is given once for ever: neither the exit nor an `exec` of its owner lets another task have it, and after an `exec` the owner has it no more (`Spaces.AddressSpaces.Grant`, `Spaces.AddressSpaces.Exec`).
- Error exits of `fork`, `load` and `exec` keep the pages they had taken; the model keeps count of them as pages in the kernel's hands, and states conservation for successful calls (`Spaces.AddressSpaces.Fork`, `Spaces.AddressSpaces.Spawn`, `Spaces.AddressSpaces.Exec`).
- `malloc` wraps for sizes near SIZE_MAX (`Malloc.LargestRequestWraps`; the exact bound is `Malloc.TotalSuffices`), and from 2^63 on hands `sbrk` a negative number, which the kernel refuses unless the heap would only shrink (`Malloc.Heap.Malloc`).

## Model

| member | source | states |
|---|---|---|
| Traps.AlwaysInv | src/kernel/trap.rs:122-169 | the manager's invariant holds after every run of traps, of any length and in any order: one running task, which is the current one; the runnable count exact; idle runs only alone; whoever sleeps waits for something that is there; endpoints, queues and tasks agree |
| Traps.AfterInv | src/kernel/syscall.rs:28-151 | each single trap keeps that invariant, and needs nothing else of the state it finds |
| Tasks.OneRunning | src/kernel/task.rs:337-373 | a task is Running if and only if it is the current one |
| Tasks.ReceiverIff | src/kernel/task.rs:700-719 | an endpoint has a waiting receiver if and only if its owner sleeps on receiving from it |
| Tasks.ReceiverThere | src/kernel/task.rs:683-693 | a waiting receiver is in the table, asleep on this endpoint, and the queue is empty, so looking it up cannot fail |
| Tasks.SleeperWaits | src/kernel/task.rs:600-625 | a task is Sleeping exactly when it waits for something; an awaited child is present, not a zombie, and its own; a parent that is named is alive |
| Tasks.DropKeeps | src/kernel/task.rs:134-148 | taking parentless zombies out of the table keeps all of the invariant |
| Sched.Picked | src/kernel/task.rs:345-372 | the round-robin scan misses no ready task: it picks a ready one, and idle exactly when there is none |
| Sched.PickNear | src/kernel/task.rs:345-360 | and it picks none farther behind the current slot than any ready task, so the nearest |
| Sched.ScheduledInv | src/kernel/task.rs:337-373 | whoever was current and however it was left, after scheduling the invariant holds again |
| Sched.ScheduledReaps | src/kernel/task.rs:134-148 | every parentless zombie but the task that was current is gone after the next scheduling |
| Sched.ScheduledTask | src/kernel/task.rs:337-373 | scheduling takes from a task that stays nothing but its status, and from the one that was current its registers, which are saved |
| Sched.ScheduledGoesOn | src/kernel/task.rs:355-368 | after scheduling the processor goes on with the current task, with the registers that this task has in the table |
| Sched.BoundedWaiting | src/kernel/task.rs:337-360 | at each scheduling a ready task is chosen or its cyclic slot distance from the running task gets smaller |
| Delivery.WaitStep | src/kernel/syscall.rs:28-151 | every trap but an exit, whether it schedules or not, leaves a ready task chosen, nearer, or where it was |
| Delivery.ChosenInTime | src/kernel/task.rs:337-360 | in every run a ready task is chosen within MAX_TASKS calls of the scheduler, and as many again for each exit in between |
| Delivery.ExitStep | src/kernel/task.rs:1044-1066 | an exit chooses a ready task if and only if no ready task stands in a lower slot; it sets one back if and only if the one chosen stands below the slot of the task that exits, and that below it |
| Sched.ForkedInv | src/kernel/task.rs:446-472 | a fork keeps the invariant, and makes no task exactly when every slot is taken; otherwise the one new task has a pid that nobody has, is ready, has its parent, its memory and its registers with a0 cleared, and nobody else changes |
| Sched.CreatedTask | src/kernel/task.rs:224-304 | a program becomes a task exactly when a slot is free: a ready child of the current task, with a pid that nobody has had and the registers and memory given; nobody else changes |
| Sched.WaitedInv | src/kernel/task.rs:600-625 | waiting keeps the invariant, whichever of its three outcomes it has |
| Sched.WaitReaps | src/kernel/task.rs:600-614 | the first wait for a zombie child returns its exit code and removes it, and a second wait fails |
| Sched.ExitedInv | src/kernel/task.rs:995-1066 | an exit keeps the invariant |
| Sched.ExitDelivers | src/kernel/task.rs:995-1043 | an exit code goes one way and not both: a parent asleep on the task is woken with it in a0, its sign extended, and every other register kept, and the zombie is orphaned; or the zombie keeps code and parent for a later wait; every child of the exiting task loses its parent |
| Registers.ChosenGoesOn | src/kernel/trap.rs:122-149 | after every trap that ends in a choice of the scheduler, the exit among them, the processor goes on with the registers that the chosen task has in the table |
| Registers.TrapLeaves | src/kernel/task.rs:343-348 | a task that has to wait for the processor is kept with exactly the registers it came with, 0 in a0 after a yield, and with its memory |
| Registers.OthersTold | src/kernel/syscall.rs:28-151 | what each trap does to the registers and memory of every other task, register by register and byte by byte: a message to the waiting owner, an answer to the client, 0 to sleepers on the serial port, the exit code to the waiting parent, and nothing to anybody else |
| Registers.ForkReturns | src/kernel/syscall.rs:51-56 | a fork returns the child's pid in a0 and 0 in the child's, and usize::MAX exactly when memory or slots are used up; no other register changes |
| Registers.WaitReturns | src/kernel/syscall.rs:64-73 | waitpid returns the exit code of a zombie child with its sign extended, usize::MAX for no child, and waits exactly for a child that lives |
| Registers.IrqReturns | src/kernel/task.rs:1330-1355 | irq_wait sleeps exactly for the owner of the port, and returns usize::MAX to everybody else |
| Resuming.ReadyResumes | src/kernel/task.rs:337-373 | in every run a ready task that is chosen goes on with the registers and the memory with which it became ready |
| Resuming.InterruptInvisible | src/kernel/trap.rs:132-149 | in every run a task that was interrupted goes on with exactly the registers and the memory it had; after a yield only a0 is 0 |
| Resuming.SleeperReturns | src/kernel/task.rs:600-993 | in every run a task that slept goes on with what ended its sleep: the words of the reply, the message, the child's exit code, or 0; everything else in its registers is as it went to sleep |
| Lives.AfterFollows | src/kernel/task.rs:446-472 | no trap uses a pid again, brings a task back, revives a zombie, changes its code, gives a task another parent or an endpoint another owner; and nobody but the task that exits stops living |
| Lives.DeadForever | src/kernel/task.rs:134-148 | a task that has exited is never alive again, in any run |
| Lives.DeliverySettles | src/kernel/task.rs:600-625 | a delivery of an exit code leaves nobody who could wait for that task, and that lasts |
| Lives.DeliveredOnce | src/kernel/task.rs:995-1043 | in every run the exit code of each task is delivered at most once, be it to a parent that is woken or to a wait for the zombie |
| Sched.EnteredInv | src/kernel/task.rs:1172-1186 | entering the first task after booting establishes the invariant |
| Start.StartedInv | src/main.rs:13-60 | starting up succeeds at every step and ends in a state that satisfies the invariant, with the shell running, both servers ready, each program with its own registers and memory, exactly the two servers' endpoints registered, empty and unflagged, and the serial port given to the console |
| Start.EveryRun | src/main.rs:13-60 | in every run of the started machine the invariant holds, each endpoint delivers its calls in order with their own bytes, each exit code is delivered at most once, and each call is answered once with no caller forgotten if and only if the owners keep to their loops |
| Start.KernelMain | src/main.rs:13-60 | the same start in place, by the methods of the task manager; the processor goes on with the shell's registers |
| Kernel.TaskManager.Boot | src/kernel/task.rs:167-221 | the new manager with its idle task |
| Kernel.TaskManager.EnterTask | src/kernel/task.rs:1172-1186 | starts the first task, with its own saved registers |
| Kernel.TaskManager.Schedule | src/kernel/task.rs:337-373 | the loops over the task array come to what the state function says, and what the processor goes on with is the frame that the chosen task has in the table |
| Kernel.TaskManager.ReapDetachedZombies | src/kernel/task.rs:134-148 | the sweep removes exactly the parentless zombies other than the current task |
| Kernel.TaskManager.Fork | src/kernel/task.rs:446-472 | the table, counters and registers after a fork, in place |
| Kernel.TaskManager.CreateUserImage | src/kernel/task.rs:257-304 | the table after a task has been made for a loaded image |
| Kernel.TaskManager.WaitPid | src/kernel/task.rs:600-625 | the whole manager state and the outcome of a wait |
| Kernel.TaskManager.ExitCurrent | src/kernel/task.rs:995-1066 | the whole manager state after an exit, with its two passes over the table and its scan from slot 0; the processor goes on with the chosen task's own registers |
| Kernel.TaskManager.WaitUartIrq | src/kernel/task.rs:1330-1355 | only the owner of the serial port may sleep on it |
| Kernel.TaskManager.WakeUart | src/kernel/task.rs:1358-1377 | wakes everybody who sleeps on the serial port, with a0 cleared |
| Kernel.TaskManager.RegisterEndpoint | src/kernel/task.rs:635-654 | an endpoint is registered once, for a live owner |
| Kernel.TaskManager.GrantUart | src/kernel/task.rs:1289-1303 | who owns the serial port |
| Kernel.TaskManager.Handle | src/kernel/trap.rs:122-169 | one trap handled in place is one step of the state machine, which keeps the invariant; after every trap that schedules, the processor goes on with the registers that the chosen task has in the table |
| Ipc.CalledInv | src/kernel/task.rs:656-698 | a call keeps the invariant, whether the owner waits, the message is queued or the call is refused |
| Ipc.ReceivedInv | src/kernel/task.rs:700-719 | a reception keeps the invariant |
| Ipc.RepliedInv | src/kernel/task.rs:721-749 | a reply keeps the invariant |
| Ipc.CalledBufInv | src/kernel/task.rs:855-946 | a call with a buffer keeps the invariant, in which at most one queued message carries a buffer and then the flag is set |
| Ipc.ReceivedBufInv | src/kernel/task.rs:948-992 | a reception with a buffer keeps the invariant |
| Ipc.RepliedBufInv | src/kernel/task.rs:754-822 | a reply with a buffer keeps the invariant |
| Ipc.RegisteredIs | src/kernel/task.rs:635-654 | an endpoint is registered if and only if its number is below eight and free and the owner is there; it is empty, unflagged, nobody waits, and nothing else changes |
| Registers.CallReturns | src/kernel/syscall.rs:74-82 | a call is taken if and only if the endpoint is registered, somebody else's, and has fewer than eight messages; otherwise a0 is usize::MAX and nothing changes |
| Registers.CallBufReturns | src/kernel/syscall.rs:111-121 | the same for a call with a buffer, which must besides be no longer than 4096 bytes and all mapped, with the flag clear or the owner waiting |
| Registers.RecvReturns | src/kernel/syscall.rs:83-89 | a reception from a queue that is not empty puts the first message's sender into a0 and its words into a1 to a4, and changes no other register; it fails exactly for who is not the owner and waits exactly on an empty queue |
| Registers.RecvBufReturns | src/kernel/task.rs:948-992 | with a buffer also: a5 is the length, or 0 when a page is missing, and exactly the mapped first bytes of the message's own payload are in memory |
| Registers.ReplyReturns | src/kernel/syscall.rs:90-96 | a reply gives the client its words in a0 to a3 and wakes it, returns 0, and touches nothing else; without the right to answer it returns usize::MAX and changes nothing |
| Registers.ReplyBufReturns | src/kernel/task.rs:754-822 | with a buffer: a5 is min(length, the client's a6, 4096); the bytes up to the first page that is missing on either side are the replier's, the rest of the client's memory is as it was; the client is woken exactly when that was all, and sleeps on otherwise with these registers and bytes |
| Registers.EventShown | src/kernel/task.rs:656-822 | what the histories log is what registers show: each message taken or handed over in the owner's, each answer in the client's |
| Registers.RecvWaits | src/kernel/task.rs:948-992 | a reception that waits notes the buffer's address and length, without one it leaves the old ones |
| Registers.AddressStays | src/kernel/task.rs:656-992 | and they stay until a message is handed over, whatever happens in between |
| Resuming.CallComesBack | src/kernel/task.rs:656-822 | in every run in which a caller goes on, the endpoint's owner has replied to it: it has the reply's words in a0 to a3, all bytes of a buffered reply at the address that its saved a5 held when it was answered, and otherwise the registers with which it called |
| Resuming.ReceptionComesBack | src/kernel/task.rs:855-992 | in every run in which a receiver that waited with a buffer goes on, somebody has called it: it has the caller, the words, and the caller's bytes as far as they fit at the address it gave |
| Wakeups.WakeExactly | src/kernel/task.rs:721-749 | a sleeping task is woken by exactly the traps that end what it waits for: the exit of the child, an interrupt of the serial port, an answer to its call by the endpoint's owner, a message handed to it; any other trap leaves it asleep on the same thing |
| Wakeups.ReturnsExactly | src/kernel/task.rs:600-750 | some run of traps brings a task back to the processor if and only if it is in no set of tasks that all wait for one another: for a child in the set, for an owner in the set or gone, or for a call that nobody outside the set is left to make |
| Wakeups.CallerReturns | src/kernel/task.rs:656-698 | a caller can run again if and only if the endpoint's owner is alive and can run again |
| Wakeups.CallerOfDead | src/kernel/task.rs:995-1066 | a caller whose endpoint's owner has exited sleeps in its call in every run from then on |
| Wakeups.CallToDead | src/kernel/task.rs:656-668 | a call to such an endpoint is accepted like any other, and its caller never runs again |
| Start.ServersLocked | src/main.rs:13-60 | that the owner is alive is not enough: three traps after starting up, console and file server can each be asleep in a call to the other, alive, and neither ever runs again |
| Histories.QueueStep | src/kernel/task.rs:855-992 | the queue in which each message carries its own payload, read off ring, shared copy buffer and flag, changes at every trap as a FIFO does: what is called goes behind, what is received goes from the front, nothing else changes |
| Histories.AlwaysInOrder | src/kernel/task.rs:656-719 | in every run each endpoint has delivered a prefix of its calls, in order, each with the bytes its sender passed; the rest is in its queue |
| Histories.AlwaysOnce | src/kernel/task.rs:656-750 | in a run each call is delivered once and answered once, and every task asleep in a call is exactly once in the queue or is the client being served, all the way, if and only if the owners receive only when they serve nobody and answer only the client they serve |
| Histories.OnceExactly | src/kernel/task.rs:700-749 | one trap keeps that if and only if it is no reception by an owner that is serving and no successful reply to anybody but the client being served |
| Histories.HistoriesBegin | src/kernel/task.rs:635-654 | the histories may begin empty where nothing is queued and nobody calls, as after starting up |
| Histories.CallersStep | src/kernel/task.rs:721-749 | which tasks sleep in a call changes at every trap as its event says |
| Histories.ReplyToQueued | src/kernel/task.rs:721-749 | without that discipline a reply reaches a client whose message is still queued: it has the answer in its registers and goes on, and the message stays |
| Start.EarlyReply | src/kernel/task.rs:721-749 | it can happen two traps after starting up: the shell calls, and the console replies without having received; the shell goes on, its message is still queued, and exactly-once is lost |
| Histories.FlagLeftSet | src/kernel/task.rs:708-711 | a plain reception that takes the buffered message leaves the buffer flag set |
| Histories.FlagStep | src/kernel/task.rs:855-992 | what every trap makes of the buffer flag: only a buffered call that is queued sets it, and only a buffered reception of such a message clears it |
| Histories.FlagRefuses | src/kernel/task.rs:868-876 | with the flag left set, calls with a buffer are accepted if and only if the owner waits when they are made |
| Histories.CallLeavesAddress | src/kernel/task.rs:683-693 | a plain call wakes an owner that waits with a buffer: sender and words are in its registers, a5 is as it was, and the endpoint keeps the buffer address |
| Delivery.RecvBufGets | src/kernel/task.rs:948-992 | a reception with a buffer gets the first message of the queue and the first min(length, capacity) bytes of that message's own payload; the rest of memory is as it was |
| Delivery.HandoffGets | src/kernel/task.rs:855-946 | the same for an owner that was waiting when the call was made; the endpoint then forgets the buffer |
| Kernel.TaskManager.IpcCall | src/kernel/task.rs:656-698 | the whole manager state after a call |
| Kernel.TaskManager.IpcRecv | src/kernel/task.rs:700-719 | the whole manager state after a reception; from a queue that is not empty the caller gets the first message: its sender in a0, its words in a1 to a4, and no other register changes |
| Kernel.TaskManager.IpcReply | src/kernel/task.rs:721-749 | the whole manager state after a reply; the client has the words in a0 to a3, and no other register changes |
| Kernel.TaskManager.IpcCallBuf | src/kernel/task.rs:855-946 | the same for calls with a buffer |
| Kernel.TaskManager.IpcRecvBuf | src/kernel/task.rs:948-992 | the same for receptions with a buffer |
| Kernel.TaskManager.IpcReplyBuf | src/kernel/task.rs:754-822 | the whole manager state after a reply with a buffer; when it succeeds the client has the words, the length in a5, and each of the replier's bytes at the address it gave, the rest of its memory as it was |
| Kernel.TaskManager.MemCopyFromUser | src/kernel/task.rs:825-838 | copies up to the first address that is not mapped and says how far it came |
| Kernel.TaskManager.MemCopyToUser | src/kernel/task.rs:840-853 | the same in the other direction |
| MsgQueues.MsgQueue.Push | src/kernel/ipc.rs:53-62 | the ring of eight is a queue: a message goes behind the others, and is refused exactly when there are eight |
| MsgQueues.MsgQueue.Pop | src/kernel/ipc.rs:64-73 | the oldest message leaves the ring, going round its end |
| MsgQueues.MsgQueue.Peek | src/kernel/ipc.rs:75-82 | the oldest message, with the queue unchanged |
| FatTable.ChainStep | user/programs/fs-server/src/main.rs:182-198 | following the table through a chain meets its clusters in order and ends at the end mark |
| FatTable.ChainsDisjoint | user/programs/fs-server/src/main.rs:182-198 | no cluster is met twice, in one chain or in two |
| FatTable.FreeIffNowhere | user/programs/fs-server/src/main.rs:214-224 | a cluster's entry is 0 if and only if the cluster is in no chain |
| FatTable.Conservation | user/programs/fs-server/src/main.rs:226-239 | free clusters and the lengths of all chains add up to the number of data clusters |
| FatTable.AllocKeeps | user/programs/fs-server/src/main.rs:226-239 | marking a free cluster as an end makes it a chain of its own and leaves all others |
| FatTable.LinkKeeps | user/programs/fs-server/src/main.rs:554-561 | linking it behind the end of a chain makes the chain longer by it and leaves all others |
| FatTable.FreeKeeps | user/programs/fs-server/src/main.rs:953-971 | freeing a chain drops it and leaves all others |
| FatTable.TruncateKeeps | user/programs/fs-server/src/main.rs:1137-1156 | freeing all but the first cluster and ending the chain there leaves a chain of one |
| Fat32.Fs.Format | user/programs/fs-server/src/main.rs:1162-1266 | the formatted disk is a valid file system with an empty root directory in cluster 2, the table from sector 32 on and the data from sector 96 on |
| Fat32.Fs.FatNext | user/programs/fs-server/src/main.rs:182-198 | what the four bytes of the table say comes next, if that is a cluster |
| Fat32.Fs.OnDisk | user/programs/fs-server/src/main.rs:176-197 | where each byte of a cluster stands on the disk, and that its entry in the table is the little-endian number at four bytes per cluster, without the top four bits |
| Fat32.Fs.FatSet | user/programs/fs-server/src/main.rs:200-212 | the four bytes of one entry become the value's, and no other byte of the disk changes; in the table that is the value without its top four bits, in place of the old entry |
| Fat32.Fs.FindFreeCluster | user/programs/fs-server/src/main.rs:214-224 | the smallest free cluster; none exactly when the disk is full |
| Fat32.Fs.AllocCluster | user/programs/fs-server/src/main.rs:226-239 | a zeroed chain of one, and nothing else changed; it fails exactly when the disk is full |
| Fat32.Fs.ExtendChain | user/programs/fs-server/src/main.rs:554-561 | a zeroed cluster behind the last of a chain |
| Fat32.Fs.FreeChain | user/programs/fs-server/src/main.rs:953-971 | frees the clusters from one of a chain on, counts them, and leaves the others |
| Fat32.Fs.Truncate | user/programs/fs-server/src/main.rs:1137-1156 | the file keeps its first cluster, zeroed; its other clusters are free |
| Fat32.Fs.ReadFile | user/programs/fs-server/src/main.rs:422-482 | exactly the bytes of the chain from the offset on, as many as chain, file size and buffer allow; the rest of the buffer as it was |
| Fat32.Fs.WriteFile | user/programs/fs-server/src/main.rs:485-571 | the exact state after a write: the bytes written, the zeroed tail of a sector written from its start, zeros in gaps, all else kept; fewer bytes than asked only on a full disk; and the last cluster |
| Fat32.WrittenBytes | user/programs/fs-server/src/main.rs:524-545 | every byte of a file after a write: written, kept, or zero because it lies behind what was written in a sector entered at its start, or in a cluster the write added |
| Fat32.ReadBack | user/programs/fs-server/src/main.rs:422-571 | reading after a write gives back the bytes written |
| Fat32.OthersKept | user/programs/fs-server/src/main.rs:485-571 | a write leaves the chain and every byte of every other file |
| Fat32.Fs.WriteThenRead | user/programs/fs-server/src/main.rs:1323-1408 | a write request and then a read request: the bytes reported written read back, whatever the disk held |
| DirSlots.ListedAs | user/programs/fs-server/src/main.rs:587-634 | a valid 8.3 name is listed in upper case and without the dot it ends with; so it is found again if and only if it does not end with a dot |
| DirSlots.CaseIgnored | user/programs/fs-server/src/main.rs:352-355 | two names find the same entries if and only if they are equally long and their bytes are equal but for the case of A to Z |
| DirSlots.UpperSame | user/programs/fs-server/src/main.rs:352-355 | which is the same as being equal in upper case |
| DirSlots.ShortBytes | user/programs/fs-server/src/main.rs:608-613 | the eleven bytes of a valid short name: what stands before and behind the last dot, padded with spaces, a to z as A to Z, so that no byte is a lower-case letter |
| DirSlots.LongSlotBytes | user/programs/fs-server/src/main.rs:741-790 | each byte of a long-name slot: its number and mark, attribute 0x0F, and the characters as two bytes each in three pieces, the low byte first, ended by 0 and filled with 0xFF |
| DirSlots.ChecksumNext | user/programs/fs-server/src/main.rs:576-582 | the checksum of the short name, byte by byte |
| DirSlots.ChecksumDetects | user/programs/fs-server/src/main.rs:576-582 | a short name with any one byte changed has another checksum |
| DirSlots.LfnChecksum | user/programs/fs-server/src/main.rs:576-582 | the loop computes that checksum |
| DirSlots.Deleting | user/programs/fs-server/src/main.rs:1025-1040 | marking slot i deleted takes exactly entry i out of what the walk lists |
| DirSlots.Creating | user/programs/fs-server/src/main.rs:716-730 | a short entry in the first free slot adds exactly itself to what the walk lists; its name is its own unless slots of a deleted long name stand before it |
| DirSlots.LongNameReadBack | user/programs/fs-server/src/main.rs:267-312 | decoding the slots written for a name of 14 to 195 ASCII characters gives the name, with and without a terminator; the one exception is stated exactly |
| Directory.FindEntry | user/programs/fs-server/src/main.rs:345-362 | the first entry that the walk over the chain lists under the name, where letters are compared without regard to case |
| Directory.DeleteDirEntry | user/programs/fs-server/src/main.rs:974-1098 | the first entry under the name is marked deleted and nothing else on the disk changes; false exactly when there is none |
| Directory.CreateDirEntry | user/programs/fs-server/src/main.rs:680-829 | the parts of the name, with the checksum, and the entry go into the first run of free slots of one sector, growing the directory as far as needed; when there is no room what has changed is stated |
| Directory.FillEntry | user/programs/fs-server/src/main.rs:731-814 | the bytes of the long-name slots and of the short entry |
| Directory.ShortEntryBytes | user/programs/fs-server/src/main.rs:794-804 | where the bytes of a short entry stand: name, attribute, the halves of the first cluster, and the size, the low byte first |
| Directory.SlotKinds | user/programs/fs-server/src/main.rs:1025-1040 | which first bytes mark a free slot, which attribute a long-name slot, and which byte deleting changes |
| Directory.FindRun | user/programs/fs-server/src/main.rs:706-730 | the first run of free slots in a sector |
| DirMap.EmptyIsMap | user/programs/fs-server/src/main.rs:1162-1266 | a directory of free slots, as the formatted root is, is the empty map |
| DirMap.CreatedIs | user/programs/fs-server/src/main.rs:680-829 | creating an entry under a new valid 8.3 name puts exactly it into the map of the directory |
| DirMap.DeletedIs | user/programs/fs-server/src/main.rs:974-1098 | deleting takes exactly the name out of the map |
| DirMap.FindIs | user/programs/fs-server/src/main.rs:345-362 | looking a name up in the slots is looking its upper case up in the map |
| DirMap.EnlargeIs | user/programs/fs-server/src/main.rs:818-826 | a fresh sector of free slots behind full ones changes nothing in the map |
| DirMap.Create | user/programs/fs-server/src/main.rs:680-829 | the map with the name put in, or unchanged on a full disk; other chains and their clusters are as before |
| DirMap.Lookup | user/programs/fs-server/src/main.rs:345-362 | what the map holds under the name, or none |
| DirMap.Remove | user/programs/fs-server/src/main.rs:974-1098 | the map without the name; true exactly when it was there; other chains and their clusters are as before |
| DirMap.OtherDirectory | user/programs/fs-server/src/main.rs:680-1098 | what is done in one directory leaves every other directory as it was, slot by slot and as a map |
| DirMap.LongNameListed | user/programs/fs-server/src/main.rs:259-312 | an entry created under a long name is listed under it, if and only if no slot before it marks the end |
| Pages.PageAllocator.constructor | src/kernel/page.rs:33-40 | all pages free, no more than 4096 of them |
| Pages.PageAllocator.Alloc | src/kernel/page.rs:43-64 | the free page with the lowest address, and none exactly when no page is free; bitmap, set and count agree |
| Pages.PageAllocator.Free | src/kernel/page.rs:67-84 | the page is free afterwards; an address that is no page of the allocator, or is free already, changes nothing |
| Pages.BitLaws | src/kernel/page.rs:51-57 | setting and clearing a bit of a word changes that bit and no other |
| PageTables.EntryRoundTrip | src/kernel/pgtable.rs:62-69 | an entry gives back the page and the flags it was made of |
| PageTables.TreeNodes | src/kernel/pgtable.rs:72-111 | no table is in the tree twice |
| PageTables.AddMid | src/kernel/pgtable.rs:84-92 | a fresh blank page linked at the top level keeps the tree and the map |
| PageTables.AddLow | src/kernel/pgtable.rs:84-92 | the same one level below |
| PageTables.SetLeaf | src/kernel/pgtable.rs:132-133 | writing an entry of the lowest level changes the map there and nowhere else |
| PageTables.EntryBelow | src/kernel/pgtable.rs:38-52 | what free_walk finds in an entry: the next table below, not met before, or nothing |
| Processor.WalkIs | src/kernel/pgtable.rs:62-111 | the processor's own walk over the three levels, as the Privileged Architecture has it bit by bit, ends at the entry that the map has for the address, and finds none where the map has none or one of the reserved kind |
| Mmu.Machine.Create | src/kernel/pgtable.rs:30-35 | a blank table in a fresh page |
| Mmu.Machine.Walk | src/kernel/pgtable.rs:72-111 | where the entry for an address stands; making missing tables changes nothing in the map, and takes no more than two pages |
| Mmu.Machine.Map | src/kernel/pgtable.rs:114-138 | the map afterwards is the map before with exactly the first `done` pages added, each where nothing was mapped, all of them on success; it fails for want of pages or at a page that is mapped already |
| Mmu.Machine.SetFlags | src/kernel/pgtable.rs:141-155 | exactly the first pages of the range have the new flags and their old addresses |
| Mmu.Machine.Unmap | src/kernel/pgtable.rs:158-189 | exactly the range is unmapped, up to a page without table, and with free_page exactly its pages are given back |
| Mmu.Machine.VirtToPhys | src/kernel/pgtable.rs:192-203 | the address that the map says, and no change |
| Mmu.Machine.FreeWalk | src/kernel/pgtable.rs:38-52 | gives back every table below once, and no mapped page |
| Mmu.Machine.Free | src/kernel/pgtable.rs:55-59 | gives back exactly the tables of the tree |
| Ownership.OwnedApart | src/kernel/task.rs:85-148 | no page belongs to two tasks, and none that belongs to a task is free |
| Ownership.TaskKeeps | src/kernel/task.rs:536-598 | a change to one task keeps ownership in order when that task is in order after it |
| Ownership.MapKeeps | src/kernel/task.rs:565-577 | mapping a fresh page behind image or heap keeps ownership in order |
| Ownership.GrownKeeps | src/kernel/task.rs:578-590 | so does a mapping that failed half-way, with the tables it made |
| Ownership.ShrinkKeeps | src/kernel/task.rs:584-589 | so does unmapping and freeing a part of image or heap |
| Ownership.EmptyOwned | src/kernel/task.rs:113-116 | a task without image and heap owns exactly its tables and its stacks |
| Ownership.KernelMapKeeps | src/kernel/vm.rs:51-79 | the kernel's own mappings, each page at its own address, give the user nothing and no task a page |
| Ownership.PortKeeps | src/kernel/task.rs:1289-1303 | new flags on the serial port's entry of a task that has been given the port keep ownership in order |
| Memories.UserPage | src/kernel/task.rs:1289-1303 | whatever a user program can reach is a page of the task's own image, heap or stack, or the serial port's registers if it has been given them |
| Processor.AccessIs | src/kernel/pgtable.rs:62-111 | a user program's access goes by that entry's valid, user and right bits, to the page it names |
| Processor.AccessOwn | src/kernel/task.rs:1289-1303 | so what a user program reaches through the tables in memory is a byte of its own image, heap or stack, or of the serial port if it has been given it |
| Processor.AccessApart | src/kernel/task.rs:375-473 | and no byte of memory can be reached by two tasks |
| Processor.ReadIs | src/kernel/task.rs:375-473 | and the byte it reads is the one that the statements about memory speak of |
| Processor.ReadAfterStore | src/kernel/task.rs:375-473 | a task's memory is memory: it reads what it stored where it may store, and at every other address what it read before |
| Memories.TranslatedPage | src/kernel/task.rs:1319-1324 | what the kernel reaches through a task's table without asking for the user bit is the task's own page if and only if the address is below the top of user memory and the page is the allocator's; otherwise it is the page that has this very address, whoever uses it |
| Memories.TranslatedOther | src/kernel/task.rs:1319-1324 | so the address of any page of kernel memory leads the kernel to that page, from every task, where the user himself can reach nothing |
| Memories.KernelStays | src/kernel/vm.rs:51-88 | a step that keeps all other tasks, and after which the task that acts and the one that is made map the kernel, leaves every page of the kernel's mapped at its own address in the tables of every task; every method on address spaces keeps this |
| HeapMoves.KernelMoved | src/kernel/task.rs:536-598 | the heap never moves over the kernel's pages: neither growing nor shrinking changes what is mapped there |
| Memories.HeapExactly | src/kernel/task.rs:76-83 | from heap_base up a task's own mapped pages are exactly the heap's up to its rounded end, and the stack; the page below the stack is not mapped |
| Processor.StackThere | src/kernel/exec.rs:182-191 | the stack is the page below 0x40000000, to be read and written but not run |
| Memories.KeptReads | src/kernel/task.rs:375-473 | a task whose record, tables and pages a step keeps reads the same byte at every address |
| Memories.StoresInvisible | src/kernel/task.rs:375-473 | no sequence of stores by one task changes any byte that another task reads |
| Memories.TwinsRead | src/kernel/task.rs:398-444 | after a fork parent and child read the same byte at every address, and all the child can reach is memory: it does not inherit the serial port |
| Processor.ForkSeen | src/kernel/task.rs:398-444 | and may do the same with it, in different places of memory |
| Memories.EarlierFreeSet | src/kernel/task.rs:85-148 | when nothing was left in the kernel's hands, the free pages are the earlier ones if and only if the same pages are in use; as they are when the same tasks live, each with the pages it had |
| MemoryRuns.StepKeeps | src/kernel/task.rs:375-598 | a store, sbrk, fork, spawn, exec, reaping, grant or failed call leaves every task but the one that acts its record, tables, pages and bytes |
| MemoryRuns.RunOwnStores | src/kernel/task.rs:375-598 | over any run of such steps, however the stores of all tasks are mixed, what a task reads at the end is what its own stores alone have made of what was there at the start |
| MemoryRuns.RunInvisible | src/kernel/task.rs:375-598 | so over any run in which it does nothing it reads at the end what it read at the start |
| MemoryRuns.RunReturns | src/kernel/task.rs:85-148 | over any run without a failed call, in which the first tasks store and fork and the others do anything: when the tasks made in it have been reaped, the free pages are those it began with |
| MemoryRuns.RunBalance | src/kernel/task.rs:85-148 | over any run without a failed call the free pages and those in use are as many together, and the free pages are the earlier ones if and only if the same pages are in use |
| Spaces.AddressSpaces.Sbrk | src/kernel/task.rs:536-598 | on success the old end comes back and the heap ends that much further, new pages zeroed, all other mappings and bytes as before; on failure the heap mapping and its end as before; it fails outside the bounds, and succeeds inside them when the pages are there and nothing is mapped in the way |
| Processor.SbrkSeen | src/kernel/task.rs:536-598 | what the program finds after that: zeros to read and write in what is new, nothing in what has gone, and elsewhere what it read before |
| Spaces.AddressSpaces.GrowHeap | src/kernel/task.rs:553-583 | the growing loop: all of the range zeroed and mapped, or the mapping as before |
| Spaces.AddressSpaces.RollBack | src/kernel/task.rs:555-563 | undoing a growth that failed half-way leaves the mapping as before and gives every page back |
| Spaces.AddressSpaces.UnmapTo | src/kernel/task.rs:584-591 | unmapping the end of the heap unmaps exactly it, never fails, and frees exactly its pages |
| Spaces.AddressSpaces.FreeUserSpace | src/kernel/task.rs:85-116 | gives back exactly the pages that the task owns, each once |
| Spaces.AddressSpaces.Reap | src/kernel/task.rs:118-132 | the free pages afterwards are those before and the task's own; every other task keeps record, tables, pages and bytes |
| Spaces.AddressSpaces.MapKernel | src/kernel/vm.rs:51-88 | every page of kernel memory and of the devices is mapped at its own address with the kernel's flags, and nothing else is mapped; it fails for want of pages only |
| Processor.KernelMapped | src/kernel/vm.rs:51-88 | which the processor finds so: kernel memory at its own addresses to read, write and run, the devices' pages to read and write, none of it for users, and nothing else |
| Spaces.AddressSpaces.Grant | src/kernel/task.rs:1289-1303 | the entry of the serial port's page gets the user's flags, no other entry changes, and no memory changes hands; it succeeds if and only if the task is there and the port has not been given before, for the page is mapped in every task's tables |
| Spaces.AddressSpaces.CopyPage | src/kernel/task.rs:410-421 | one page of the copying loops: a copy with the same flags in a fresh page, or the hole left a hole |
| Spaces.AddressSpaces.Fork | src/kernel/task.rs:375-473 | on success the child has the parent's image, heap and stack with equal flags and bytes in fresh pages of its own, nobody else's memory has changed and no page is lost; on failure nothing of anybody has changed; it fails without a slot, without a page left, or where the parent has a page at a device's address, in which case it always fails, and never otherwise |
| Duplication.ClashIs | src/kernel/task.rs:398-421 | the parent has such a page if and only if its image spans a device's address |
| Spaces.AddressSpaces.LoadPage | src/kernel/exec.rs:116-152 | one page of a segment in a fresh page, with the segment's flags |
| Spaces.AddressSpaces.ElfLoad | src/kernel/exec.rs:92-159 | every page of every loadable segment is mapped with its flags and holds the file's bytes and zeros behind them; entry point and range as the headers say |
| Spaces.AddressSpaces.Load | src/kernel/exec.rs:162-198 | a whole address space with a zeroed stack, with no page lost, or nothing registered and nothing of any task changed; it fails only without a file, for a file that is not well made, or without a page left |
| Spaces.AddressSpaces.Register | src/kernel/task.rs:224-304 | the loaded program becomes a task with a kernel stack, or every page of it is given back |
| Spaces.AddressSpaces.Spawn | src/kernel/exec.rs:201-213 | a new task that runs the file, all other tasks as they were, and no page lost |
| Spaces.AddressSpaces.Exec | src/kernel/task.rs:475-533 | the task goes on with the file's program and its old kernel stack, the old address space is given back, all other tasks are as they were, and no page is lost |
| Processor.ProgramThere | src/kernel/exec.rs:106-152 | at each address of each segment of a loaded program the processor lets the user read, write and run as bits 2, 1 and 0 of the segment's flags say, and finds the file's byte, or zero behind p_filesz; the program header is given as a linker writes its bytes |
| Processor.ProgramStarts | src/kernel/exec.rs:92-198 | the entry point is the file header's, the heap is empty and lies behind all segments, the stack is zero |
| Elf.HeadersInside | src/kernel/exec.rs:73-89 | a verified file has all its program headers inside |
| Elf.SegmentRead | src/kernel/exec.rs:30-40 | a program header written field by field in the order of the gABI, each number with its lowest byte first, is read with these values, and its flags bit by bit |
| Elf.FileHeaderRead | src/kernel/exec.rs:10-28 | so is the file's header: entry point, place and number of the program headers; and the file is taken if and only if type, machine and header size are right and the headers lie in it |
| Elf.PageOf | src/kernel/exec.rs:116-141 | copying the file's part over a zeroed page gives for each byte what the segment says: the file's byte below p_filesz, zero elsewhere |
| Elf.SegmentIn | src/kernel/exec.rs:109-115 | every loadable segment lies in the range that the loader computes |
| Elf.ImageRange | src/kernel/exec.rs:109-115 | that range is whole pages, and is empty exactly when there is nothing to load |
| Malloc.TilesCoverOnce | user/libc/malloc.c:61-73 | every byte of the region lies in exactly one block |
| Malloc.SplitTiles | user/libc/malloc.c:114-126 | cutting a block in two keeps the tiling |
| Malloc.GrowTiles | user/libc/malloc.c:61-73 | so does a new block at the end of the region |
| Malloc.FreeKeeps | user/libc/malloc.c:75-82 | a block put at the head of the free list keeps blocks, headers and list in order |
| Malloc.DetachKeeps | user/libc/malloc.c:84-97 | so does taking a block out of the list |
| Malloc.SplitKeeps | user/libc/malloc.c:114-126 | so does serving a request from the front of a block |
| Malloc.HeadersMiss | user/libc/malloc.c:75-97 | no header shares a byte with another block |
| Malloc.TotalSuffices | user/libc/malloc.c:104-107 | the block size holds the request if and only if the request is at most SIZE_MAX - 31 |
| Malloc.LargestRequestWraps | user/libc/malloc.c:104-107 | the largest request of all gets the smallest block |
| Malloc.Heap.Malloc | user/libc/malloc.c:99-154 | the first block of the list that fits is taken, and only if none fits is the region grown; the payload is 16-aligned, large enough and apart from all live ones; no live payload changes; 0 changes nothing |
| Malloc.Heap.Free | user/libc/malloc.c:156-165 | exactly this block is live no more; no other payload changes |
| Malloc.Heap.Calloc | user/libc/malloc.c:167-179 | the payload is zero; a product that does not fit gives 0 |
| Malloc.Heap.Realloc | user/libc/malloc.c:181-206 | the old bytes are at the new address, or the block stays where it is; failure keeps the old block |
| Malloc.Heap.RequestMore | user/libc/malloc.c:61-73 | a new block at the old end of the region, or nothing; nothing in particular for sizes that are negative to the kernel call |
| Malloc.Heap.AddToFreeList | user/libc/malloc.c:75-82 | the block becomes the head of the list |
| Malloc.Heap.RemoveFromFreeList | user/libc/malloc.c:84-97 | exactly this block leaves the list; a block that is not in it changes nothing |
| Newc.HeaderFields | build.rs:129-135 | all fourteen fields of the header in the order of cpio(5), at their places, the sizes where the reader looks for them |
| Newc.FieldDigits | build.rs:129-135 | each of the eight characters of a field is the hexadecimal digit of its place, in lower case |
| Newc.Archive.PadTo4 | build.rs:136-141 | zero bytes up to the next multiple of four |
| Newc.Archive.AppendNewcEntry | build.rs:129-142 | one entry behind the archive, as cpio(5), "New ASCII Format", lays it out |
| Newc.BuildInitrd | build.rs:223-232 | all entries in order, and the trailer |
| Initrd.Hex | src/kernel/initrd.rs:22-34 | the number that the digits denote, or none |
| Initrd.FieldValue | src/kernel/initrd.rs:22-34 | reading eight digits undoes writing them |
| Initrd.AppendedReads | src/kernel/initrd.rs:45-69 | one appended entry, inside any archive that goes on from it, reads back as itself |
| Initrd.FileTable.ReadRecord | src/kernel/initrd.rs:45-66 | the record at a position, or the reasons to stop |
| Initrd.FileTable.Init | src/kernel/initrd.rs:40-72 | the table holds the first 16 entries of the archive that are not "." |
| Initrd.FileTable.Find | src/kernel/initrd.rs:74-82 | the data of the first entry of that name; none exactly when there is no such entry |
| Initrd.ParsesBuilt | src/kernel/initrd.rs:40-72 | for all names and data, reading what was built gives the entries up to the first one that carries the trailer's name |
| Initrd.BuildThenInit | src/kernel/initrd.rs:40-72 | building and then reading gives exactly the first 16 entries |
| Initrd.OrdinaryNamesAllKept | src/kernel/initrd.rs:58-69 | with ordinary names nothing is skipped |

## Left out

- Kernel.TaskManager.Fork: whether the memory for the child could be made is a parameter here, because tasks' memory is a map of bytes in this part; `Spaces.AddressSpaces.Fork` is the same call on pages and tables. The two parts are not composed into one state.
- Kernel.TaskManager.CreateUserImage: takes the loaded image as parameters, for the same reason.
- Kernel.TaskManager.IpcCallBuf: the endpoint holds its queue as a sequence; that the ring array is such a sequence is proved for `MsgQueues.MsgQueue` by itself. Addresses that only the kernel's part of a table maps are no user memory in this part, and a copy stops there where the source goes on; what it reaches then is `Memories.TranslatedPage`.
- Kernel.TaskManager.IpcRecvBuf: the same of the receiver's buffer.
- Kernel.TaskManager.IpcReplyBuf: the same of both buffers.
- Kernel.TaskManager.MemCopyFromUser: the same of the address it reads from.
- Kernel.TaskManager.MemCopyToUser: the same of the address it writes to.
- Kernel.TaskManager.GrantUart: who owns the port; the flags of the page are `Spaces.AddressSpaces.Grant`.
- Kernel.TaskManager.Handle: the step over the `ecall` instruction (`sepc += 4`) and the reading of number and arguments out of the registers are done before it; `irq_wait` for another interrupt than the port's only fails; page faults and unknown traps, where the kernel panics, are not traps of the model; `exec`, `sbrk`, `spawn`, `getpid`, `ps` and the grants count as local steps that change at most the current task's registers and memory.
- Histories.AlwaysOnce: that the servers' programs keep to their loops is not proved; they are not part of this model.
- Fat32.Fs.Format: the bytes of the boot sector and of the information sector are not described, only that the tables and the data area are as formatted; the source's other checks of a boot sector are not part of this model.
- Fat32.Fs.ReadFile: one sector per cluster, which is what formatting sets. With more, the source computes the start in the cluster wrongly.
- Directory.CreateDirEntry: the short name is a parameter; the short names of names that are no valid 8.3 names, and their numbering when they collide (`~1`), are left out. Names of 13 characters or fewer get no long-name slots, as in the source.
- Directory.FindEntry: the long-name buffer of the source has 260 units and an index of 256 or more would be out of bounds there; the model reads the first 256. Path resolution is left out.
- Fat32.Fs.Truncate: the size in the directory entry, which `update_dir_entry_size` sets afterwards, is left out, as that function is.
- DirMap.Create: valid 8.3 names that do not end with a dot and are not in the directory yet.
- `update_dir_entry_size`, with which truncation and FS_UPDATE_SIZE end, is left out: it can return before it writes. So are the `.` and `..` entries of a new subdirectory, the erasure of long-name slots, which the code never reaches, and the client library's file table.
- Ownership.KernelMapKeeps: the idle task's pages and the kernel's own page table are not tasks' pages; they are in the kernel's hands from the start.
- Mmu.Machine.Map: bit operations on entries are written as arithmetic on the low ten flag bits and the page number; requests for flags without R, W and X, which would make an entry look like a table, are excluded. Flushing the translation buffer is not modelled.
- Spaces.AddressSpaces.Sbrk: the idle task, for which `sbrk` and `fork` fail at once, has no record here. More than three free pages for each new one always suffice; fewer do when tables are there already.
- Spaces.AddressSpaces.CopyPage: what reading a device's page gives is not known; the copy is made before the mapping of it fails.
- Spaces.AddressSpaces.Load: programs whose segments end at or below the heap limit and allow at least one of reading, writing and execution. For others the source loads first and cleans up over the whole range, which may cover the kernel's own mappings.
- Spaces.AddressSpaces.Register: the checks that the heap starts on a page boundary below the limit cannot fail for images of `load` and are not written out. The registers that go to the new kernel stack belong to `Kernel.TaskManager.CreateUserImage`.
- Spaces.AddressSpaces.Spawn: when the task cannot be registered for want of a kernel stack, it is said that all pages are free again, not that they had run out.
- Malloc.Heap.Malloc: not requests above SIZE_MAX - 31, which wrap, nor those within the heap's size of 2^64, for which `sbrk` would take back part of the heap and the source would then write a header outside it. `malloc` is the only user of `sbrk`; whether the kernel grows the region is not determined.
- Malloc.Heap.Calloc: the same of the product.
- Malloc.Heap.Realloc: the same of the new size.
- Malloc.Heap.Free: the pointer is one that an allocation gave, and that has not been freed; the source does not check it.
- Initrd.FileTable.Init: archives shorter than 2^63 bytes.
- Pids are unbounded numbers: 2^32 tasks in one run are not considered.
- Drivers, timer, interrupt controller, traps' assembly, system-call stubs, the shell, console and example programs, and printing are not part of this model: they touch hardware or are thin.
