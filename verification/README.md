# A verified model of the OX controller

OX is an SSD controller: an NVMe front end, a fabrics transport, a block FTL and media managers.
This project models its most stateful parts in Dafny and proves what they are for: that the FTL never
programs a page twice or loses a live sector, that the queues under every layer neither drop nor
repeat a request, that bytes reach the page they are meant for, and that what is on disk comes back.

Imperative code is modelled as classes and methods with the source's own branches, loops and fields;
the reasoning is in small lemmas about the values those methods assign. Geometry, queue sizes and
line sizes are parameters. Concurrency is modelled by steps that may interleave in any order.

| part | modules |
|---|---|
| page allocation (`oxb-ch-prov.c`) | `ProvisionLun`, `ProvisionLog`, `ChProv` |
| transactions (`app-transaction.c`) and their recovery (`oxb-recovery.c`) | `SectorLedger`, `RedoLog`, `Transaction` |
| multi-queue engine (`ox-mq.c`) | `OxMq`, `OxMqSync`, `OxMqSweep`, `OxMqEngine` |
| file-backed media manager (`file-be.c`) | `FileLayout`, `FileStore`, `FileBe` |
| stream reassembly (`tcp-server.c`, `tcp-client.c`) | `TcpFrames`, `TcpStream` |
| write data path (`nvme_host.c` to `nvmef_ctrl.c`) | `SglPath`, `WritePath` |
| host completions and command ids | `HostCtx`, `HostRequests`, `CommandIds` |
| NVMe completion queue (`nvme_ctrl.c`) | `CqRing` |
| table transfer and channel map | `SeqTransfer`, `ChMap` |
| block metadata (`oxb-blk-md.c`) | `SectorBits`, `BlkMd` |
| bad block table (`oxb-bbtbl.c`) | `BbTbl` |
| shared facts | `Arithmetic`, `Sequences`, `Bytes` |

## Where the code does less than it seems to

These are results about the code as it is. Each is stated for all inputs, as an exact condition where it
does not always hold, and comes with an input or a run that reaches it.

- `nvme_post_cqes` (core/nvme_ctrl.c:802-818) posts at most one pending completion per call: posting
  links the request into its submission queue's list through the link the loop follows next. The
  doorbell calls it only when the ring was full before. If the host frees two or more entries of a full
  ring while two or more completions are pending, the rest of the list is never posted again, although
  the ring has room (`CqRing.CompletionQueue.Doorbell`: exactly when; `Enqueue` and `Doorbell`: for good;
  `CqRing.StuckExample`).
- A capsule that is a bare 3-byte header is held back when its header arrives split over chunks
  (`TcpStream.HeldBack`: exactly when; `TcpStream.HeldBackExample`).
- Command ids are 16 bits: the ids of a queue come back to their own queue and slot for every slot
  exactly for queue ids up to 31, although 64 queues can be created (`CommandIds.QueueSafeIff`,
  `CommandIds.CidsCollide`).
- `nvmeh_rw` keeps the block count on 32 bits, so a request of 2^44 bytes or more can be accepted and not
  be covered by its commands (`WritePath.Split`: the commands tile the request exactly below that;
  `WritePath.WrappedExample`). When the count wraps to 0 there is no command: the request takes a context,
  returns success and is never called back, and the context never comes back
  (`HostRequests.Host.Rw`, `HostRequests.Host.Others`, `HostCtx.OrphanNotCalled`).
- Whole-page invalidation keeps `invalid_sec` equal to the number of set bits if and only if the page's
  first plane is wholly invalid already or all its planes are wholly valid (`BlkMd.PageExactIff`,
  `BlkMd.PageExample`). It changes bits without marking the metadata page dirty if and only if the first
  plane is not wholly invalid and a later one is (`BlkMd.PageUnmarkedIff`, `BlkMd.UnmarkedExample`).
- `oxb_bbt_byte_flush` reports success without writing if and only if the reserved block is full and its
  erase fails (`BbTbl.ReservedBlock.Flush`, `BbTbl.LostFlushExample`).
- A line of the provisioner that is empty stays empty: page requests for it fail without any effect,
  whatever blocks become free (`ChProv.Provisioner.GetPpas`, `ChProv.Provisioner.Serve`,
  `ChProv.DeadLine`).
- Recovery from the log gives the map (the redo law), with two exceptions. A commit record appended before
  its flush fails stays in the log although the transaction has not taken effect. If the commit is repeated
  the law holds again; if the transaction is aborted, recovery maps its blocks to sectors that the abort
  invalidated (`Transaction.Manager.TryApply`: exactly when the record is written;
  `Transaction.RedoAbortIff`: an abort keeps the law exactly if the record is not there, or the transaction
  is one of garbage collection; `Transaction.RecordOfAborted`). And for a logical block that a transaction
  writes twice, recovery follows the order of allocation and the map the order of the entries: the law is
  kept exactly if no entry gets its sector after the last entry of the same block
  (`Transaction.Manager.AllocList`, `RedoLog.OutOfTurnExample`). With no block twice it always is
  (`RedoLog.DistinctInTurn`).

## Model

| member | source | states |
|---|---|---|
| `ProvisionLog.PagePpasExact` | ftl/ox-app/block/oxb-ch-prov.c:822-828 | the sector list of a page holds every plane and sector of that page exactly once and nothing else |
| `ProvisionLog.PagesInOrder` | ftl/ox-app/block/oxb-ch-prov.c:794-865 | in any stretch of an ordered log without an erase of a block, the block's pages come out consecutively from its recorded current page |
| `ProvisionLog.NoSectorTwice` | ftl/ox-app/block/oxb-ch-prov.c:794-865 | a sector handed out twice was erased in between |
| `ProvisionLog.OrderedErasesBetween` | ftl/ox-app/block/oxb-ch-prov.c:372-455 | the same for a whole log, for all three line types together |
| `ProvisionLun.AdmitInv` | ftl/ox-app/block/oxb-ch-prov.c:95-171 | a block entering the lists, bad, used or free, keeps the partition into bad, free and used blocks, the open lists and the counters |
| `ProvisionLun.OpenFirstInv` | ftl/ox-app/block/oxb-ch-prov.c:382-440 | so does opening an erased block |
| `ProvisionLun.FailEraseInv` | ftl/ox-app/block/oxb-ch-prov.c:395-426 | so does any number of failed erases, whose blocks become bad |
| `ProvisionLun.TakePageInv` | ftl/ox-app/block/oxb-ch-prov.c:794-865 | so does taking a page; a block closes with its last page, so every open block has an unwritten page |
| `ProvisionLun.PutWaitInv` | ftl/ox-app/block/oxb-ch-prov.c:499-539 | so does putting a closed block, which waits, used, closed and with USED cleared |
| `ProvisionLun.ReleaseInv` | ftl/ox-app/block/oxb-ch-prov.c:457-497 | so does returning a waiting block to the free list |
| `ProvisionLun.AdmitTyped` | ftl/ox-app/block/oxb-ch-prov.c:135-171 | a used block with OPEN set that enters the lists is in an open list, and each block of an open list has META and COLD as its type says |
| `ProvisionLun.OpenMarkTyped` | ftl/ox-app/block/oxb-ch-prov.c:607-620 | a block opened for a line has the flags of the line's type when it joins it |
| `ProvisionLun.TakePageTyped` | ftl/ox-app/block/oxb-ch-prov.c:794-865 | taking a page keeps open lists and flags in agreement |
| `ProvisionLun.SameListsAgain` | ftl/ox-app/block/oxb-ch-prov.c:95-171 | two LUNs with the same metadata and bad blocks, one of them just built, have the same open lists; waiting blocks are free in the new one |
| `ChProv.Provisioner.BlkAlloc` | ftl/ox-app/block/oxb-ch-prov.c:95-171 | a block with a bad plane is in no list, a used one in used (and, if open, in an open list), any other at a random place of the free list; `AdmitTyped` says in which open list |
| `ChProv.Provisioner.ListCreate` | ftl/ox-app/block/oxb-ch-prov.c:173-204 | all blocks of a LUN have entered the lists, the invariant holds, and META and COLD say which open list each open block is in |
| `ChProv.Provisioner.ListsAgain` | ftl/ox-app/block/oxb-ch-prov.c:95-204 | the restart law: lists built from the metadata of a running LUN put each open block back into the open list it was in; the blocks put but not released are free |
| `ChProv.Provisioner.Init` | ftl/ox-app/block/oxb-ch-prov.c:654-703 | a started channel satisfies everything that holds between calls, the line types of open blocks included, with three non-empty lines; it fails only when a line can get no block |
| `ChProv.Provisioner.BlkGet` | ftl/ox-app/block/oxb-ch-prov.c:372-455 | the first free block all of whose planes erase is opened, the k before it, whose erases failed, become bad, only the erase that worked is logged, and only free blocks are erased |
| `ChProv.Provisioner.CollectLine` | ftl/ox-app/block/oxb-ch-prov.c:548-652 | terminates (missing slots, available LUNs, distance to the next one) with distinct open blocks, as many as can be had |
| `ChProv.Provisioner.RenewLine` | ftl/ox-app/block/oxb-ch-prov.c:548-652 | the line is full, or no LUN has a free block and every open block of the type is in it |
| `ChProv.Provisioner.TakeFrom` | ftl/ox-app/block/oxb-ch-prov.c:810-850 | hands out exactly the block's next page and closes the block with its last one |
| `ChProv.Provisioner.HandOut` | ftl/ox-app/block/oxb-ch-prov.c:810-862 | one turn: a page of the current block, then the next block; the line is renewed only at the end of a round or of the request, and only if a block closed |
| `ChProv.TurnKeeps` | ftl/ox-app/block/oxb-ch-prov.c:810-862 | a turn keeps the round-robin order of the pages of a request |
| `ChProv.Provisioner.GetPpas` | ftl/ox-app/block/oxb-ch-prov.c:794-865 | the sectors returned are exactly the ones the log says were handed out; page k comes from the k-th block after the current one, open in the line's type, up to the end of the round in which a block closes; other lines are unchanged and only blocks that were free are erased; an empty line always fails without effect, and otherwise it fails only when the type has no block left |
| `ChProv.Provisioner.Amend` | ftl/ox-app/block/oxb-ch-prov.c:747-792 | a block of the line leaves the line and its open list with its pages given up; any other block is left alone |
| `ChProv.Provisioner.BlkPut` | ftl/ox-app/block/oxb-ch-prov.c:499-539 | a block without USED is refused with -1 (one that failed to erase too), an open one with -2, a closed one waits for the checkpoint |
| `ChProv.Provisioner.Checkpoint` | ftl/ox-app/block/oxb-ch-prov.c:457-539 | afterwards no block waits and every free list has gained exactly the blocks that waited, in order |
| `ChProv.Provisioner.Serve` | ftl/ox-app/block/oxb-ch-prov.c:372-865 | over any sequence of page requests, forced closes, puts and checkpoints with any erase failures, all invariants hold, no sector is handed out twice without an erase of its block in between, and an empty line stays empty |
| `ChProv.DeadLine` | ftl/ox-app/block/oxb-ch-prov.c:794-865 | a run to a state with an empty line and a free block after the checkpoint, in which the next request fails |
| `SectorLedger.ExactlyOne` | ftl/ox-app/app-transaction.c:190-234 | every sector on record is exactly one of held by one entry, mapped by one logical block, invalidated |
| `SectorLedger.LandFirstKeeps` | ftl/ox-app/app-transaction.c:268-329 | committing entries keeps that, and invalidates exactly the overwritten sectors, also when an LBA repeats |
| `SectorLedger.DropAllKeeps` | ftl/ox-app/app-transaction.c:374-395 | so does invalidating all sectors of an aborted transaction |
| `SectorLedger.ApplyAt` | ftl/ox-app/app-transaction.c:268-300 | in a transaction the last write of a logical block wins, and other logical blocks keep their sector |
| `RedoLog.AgreeSame` | ftl/ox-app/block/oxb-recovery.c:231-311 | write records whose last one of each logical block is that of the transaction's last entry have, applied in order at the commit record, the effect of the commit |
| `RedoLog.DisagreeDiffers` | ftl/ox-app/block/oxb-recovery.c:231-311 | and no others have |
| `RedoLog.AgreeFillIff` | ftl/ox-app/app-transaction.c:190-199 | the record of one more allocated entry keeps that agreement exactly if the last entry of its logical block had no sector yet |
| `RedoLog.DistinctInTurn` | ftl/ox-app/app-transaction.c:190-199 | which is always so when no logical block repeats |
| `RedoLog.OutOfTurnExample` | ftl/ox-app/block/oxb-recovery.c:231-311 | a block written twice, the second entry allocated first: the map has sector 8, recovery gives sector 7 |
| `Transaction.CommitEffect` | ftl/ox-app/app-transaction.c:260-348 | a committed transaction holds all its sectors, and landing them leaves it none |
| `Transaction.HeadDone` | ftl/ox-app/app-transaction.c:260-348 | when the oldest transaction has taken effect, ownership, queue, creation order and the fold of the map all still hold |
| `Transaction.FinishKeepsOrder` | ftl/ox-app/app-transaction.c:260-348 | finished transactions are in creation order and older than all unfinished ones |
| `Transaction.AbortKeepsOrder` | ftl/ox-app/app-transaction.c:374-395 | removing an aborted transaction from anywhere in the queue keeps the creation order |
| `Transaction.FillFirstLast` | ftl/ox-app/app-transaction.c:190-234 | filling the entries of a list does not depend on which is filled first |
| `Transaction.ClearFirst` | ftl/ox-app/app-transaction.c:190-234 | clearing the first entry of a filled list undoes its filling |
| `Transaction.Manager.New` | ftl/ox-app/app-transaction.c:62-111 | a new transaction is queued last with no sector; too many entries are refused; the redo law is kept |
| `Transaction.Manager.Rollback` | ftl/ox-app/app-transaction.c:336-347 | undoing in reverse order restores the exact map from before, with repeated LBAs too |
| `Transaction.EffectNext` | ftl/ox-app/app-transaction.c:260-348 | the effect of a run of commits is the fold of its transactions on the map, the union of what each overwrote, and their commit records in order |
| `Transaction.Manager.TryApply` | ftl/ox-app/app-transaction.c:268-347 | a transaction takes effect whole, or the map is what it was; exactly when the log gains its commit record and when the commit succeeds |
| `Transaction.Manager.CommitHead` | ftl/ox-app/app-transaction.c:260-348 | commit of the oldest transaction: map, owners and invalidated sectors change together or not at all, and the redo law is kept in either case |
| `Transaction.Manager.OrderedCommit` | ftl/ox-app/app-transaction.c:260-348 | the committed transactions at the head of the queue take effect in creation order, exactly the sectors they overwrote are invalidated, the log gains exactly their commit records (and after a failure perhaps one of the next), the others are untouched, and it stops only at the first uncommitted one or when map or log fail |
| `Transaction.Manager.Commit` | ftl/ox-app/app-transaction.c:352-372 | refused, without effect, while entries lack a sector; otherwise a prefix of the queue takes effect in order, all of it that is in turn unless map or log fail, with exactly its overwritten sectors invalidated; the redo law is kept, and if map and log did not fail recovery gives the map |
| `Transaction.Manager.Abort` | ftl/ox-app/app-transaction.c:374-395 | the transaction never takes effect; exactly its own sectors and those overwritten by the transactions that are now in turn are invalidated; the redo law is kept unless the commit record of a user transaction is in the log |
| `Transaction.RecordOfAborted` | ftl/ox-app/app-transaction.c:309-347 | a run after which the log holds the commit record of an aborted transaction that never took effect, and recovery maps its block to the invalidated sector |
| `Transaction.Manager.AllocList` | ftl/ox-app/app-transaction.c:151-234 | every entry of the list gets a fresh sector, or no entry changes and all sectors of the failed allocation, padding included, are invalidated; the records appended keep the redo law if and only if each entry is filled in turn |
| `Transaction.RedoLaw` | ftl/ox-app/block/oxb-recovery.c:231-311 | when no commit is to be repeated, recovery from the log gives the map |
| `Transaction.RedoNote` | ftl/ox-app/app-transaction.c:309-319 | the commit record of the oldest transaction makes recovery apply it, once, however often it is written |
| `Transaction.RedoFill` | ftl/ox-app/app-transaction.c:190-199 | the record of an allocated entry leaves what recovery gives and keeps the agreement of records and entries exactly if it is the entry's turn |
| `Transaction.RedoAbortIff` | ftl/ox-app/app-transaction.c:374-395 | taking a transaction off the queue keeps the law exactly if its commit record is not in the log or it is one of garbage collection |
| `Transaction.Manager.Recycle` | ftl/ox-app/app-transaction.c:245-256 | the slot goes back to the free list and keeps no sector |
| `OxMq.FineRun` | core/ox-mq.c:355-642 | the engine's invariant over every interleaving of mutex regions without timeouts, and no request is given up |
| `OxMq.FineConserves` | core/ox-mq.c:355-642 | there each accepted request is in exactly one of submission entry, completion entry, CQ thread, delivered; and none is delivered twice |
| `OxMq.OnePlace` | core/ox-mq.c:355-642 | a request is in at most one place, and in exactly one unless a timeout gave it up |
| `OxMq.DeliveredOnce` | core/ox-mq.c:433-495 | only accepted requests are delivered, each at most once |
| `OxMq.TimedRun` | core/ox-mq.c:661-740 | with sweeps and completion calls as steps the invariant holds, and free + used + waiting entries, with those in a thread's hand, are always as many as configured |
| `OxMq.TimedAtMostOnce` | core/ox-mq.c:561-740 | with timeouts too no request is in two places or delivered twice |
| `OxMq.LateCompletionRefused` | core/ox-mq.c:561-642 | a completion after the timeout posts nothing and moves no entry; it frees an extended entry |
| `OxMq.SweepInv` | core/ox-mq.c:684-740 | a whole sweep keeps the invariant, with and without completion on timeout |
| `OxMqSweep.SweepOutcome` | core/ox-mq.c:684-740 | with completion on timeout the expired requests with a pointer are in completion entries, from the last of the list on for as long as there are free ones, and the others are given up; without it all are given up; no other request moves; the expired entries leave the wait list and the rest stays in order |
| `OxMqSweep.EnoughRoom` | core/ox-mq.c:726-733 | with as many free completion entries as expired entries every expired request with a pointer is posted |
| `OxMqSweep.CompletePosts` | core/ox-mq.c:561-642 | completing a waiting entry moves its request to the end of the completion list and frees the entry |
| `OxMqSync.DeliveredInOrder` | core/ox-mq.c:355-495 | if the SQ function completes synchronously, delivery follows queueing order |
| `OxMqEngine.Engine.SubmitReq` | core/ox-mq.c:511-559 | refused exactly when no entry is free, otherwise the two submission steps |
| `OxMqEngine.Engine.SqTurn` | core/ox-mq.c:390-428 | one turn of the SQ thread takes the first queued entry to the wait list |
| `OxMqEngine.Engine.CompleteReq` | core/ox-mq.c:561-642 | the call is the composition of the completion steps, and fails exactly for a refused entry or a full completion queue |
| `OxMqEngine.Engine.CqTurn` | core/ox-mq.c:468-495 | one turn of the CQ thread delivers the first completed request |
| `OxMqEngine.Engine.ProcessToEntry` | core/ox-mq.c:661-682 | a timed-out entry leaves the wait list and a new one joins the free list |
| `OxMqEngine.Engine.CheckQueueTo` | core/ox-mq.c:684-740 | one sweep is the sweep step of the transition system, with the outcome of `SweepOutcome` for every request |
| `OxMqEngine.Engine.RoundTrip` | core/ox-mq.c:355-642 | a request with a pointer on an idle queue, completed at once, is delivered |
| `FileLayout.PagesApart` | mmgr/file-be/file-be.c:433-455 | the byte ranges of different pages do not overlap |
| `FileStore.IdsExtend` | mmgr/file-be/file-be.c:553-577 | file ids stay exactly 1..n, each used by one block, when a block gets the next one |
| `FileStore.ExtendKeeps` | mmgr/file-be/file-be.c:479-518 | a new extent changes no page: the file has n extents and the new block reads as zeros |
| `FileStore.WriteStores` | mmgr/file-be/file-be.c:540-590 | the file operations of a page write store the buffer in its page and leave every other page alone |
| `FileStore.EraseInPlace` | mmgr/file-be/file-be.c:406-431 | an erase zeroes the pages of its plane block and no other |
| `FileStore.CrashSafe` | mmgr/file-be/file-be.c:540-590 | a stop after any number of the file operations of a page write, then a reload, gives the store from before or after the write |
| `FileBe.CountMapped` | mmgr/file-be/file-be.c:553-560 | counts the blocks that have an extent |
| `FileBe.LoadTable` | mmgr/file-be/file-be.c:870-888 | the block table read back agrees with the metadata file on every plane |
| `FileBe.LoadDisk` | mmgr/file-be/file-be.c:852-902 | reload cuts the data file to the recorded extents and restores the invariant |
| `FileBe.Device.constructor` | mmgr/file-be/file-be.c:819-850 | a fresh disk holds zeros everywhere |
| `FileBe.Device.MapBlock` | mmgr/file-be/file-be.c:541-583 | the first write into a block appends an extent, gives every plane the next id and records it, in that order |
| `FileBe.Device.PutPage` | mmgr/file-be/file-be.c:540-590 | the file operations performed are exactly those of a page write, in order |
| `FileBe.Device.WritePage` | mmgr/file-be/file-be.c:540-590 | the device refines the plain page store, and performs exactly the file operations that `CrashSafe` speaks of; no plane block's life changes |
| `FileBe.Device.ReadPage` | mmgr/file-be/file-be.c:532-539 | a read returns the last write since the last erase of the plane block, or zeros |
| `FileBe.Device.EraseBlk` | mmgr/file-be/file-be.c:591-604 | refused without effect when no life is left, otherwise an erase of the plain store that takes one life of that plane block and of no other |
| `FileBe.Device.Restart` | mmgr/file-be/file-be.c:852-902 | a restart changes no page |
| `TcpFrames.Resume` | transport/ox-fabrics/tcp-server.c:128-185 | parsing may stop anywhere and go on from what was left |
| `TcpFrames.PrefixParses` | transport/ox-fabrics/tcp-server.c:128-185 | a prefix of a stream of well-formed capsules parses into exactly the completed ones and the bytes behind them |
| `TcpFrames.EncodeDecode` | transport/ox-fabrics/ox-fabrics.h:164-166 | every non-empty payload that fits the buffer, sent with its type and little-endian 16-bit size, is a well-formed capsule and decodes to itself |
| `TcpFrames.DecodeEncode` | transport/ox-fabrics/ox-fabrics.h:164-166 | there are no other well-formed capsules |
| `TcpStream.HeldBack` | transport/ox-fabrics/tcp-server.c:140-153 | exactly when a call does not deliver everything that is complete |
| `TcpStream.HeldBackExample` | transport/ox-fabrics/tcp-client.c:46-59 | a bare header cut after its first byte is complete and not delivered |
| `TcpStream.Receiver.ProcessMsg` | transport/ox-fabrics/tcp-server.c:128-185 | one call delivers the capsules that held bytes and chunk complete and holds the rest |
| `TcpStream.Receiver.CompleteHeld` | transport/ox-fabrics/tcp-client.c:58-70 | the held capsule is delivered when complete, before those of the chunk |
| `TcpStream.Receiver.DeliverWhole` | transport/ox-fabrics/tcp-client.c:72-86 | the loop over a chunk delivers its whole capsules and keeps the tail |
| `TcpStream.Receiver.Connection` | transport/ox-fabrics/tcp-server.c:187-243 | for every cut of the encoded messages into chunks: the capsules delivered are exactly the completed ones, in order, and decode to the messages sent |
| `TcpStream.Receiver.ReceiveAll` | transport/ox-fabrics/tcp-server.c:187-243 | the same for any stream of well-formed capsules: delivered are exactly the completed ones, held is exactly the rest |
| `SglPath.Capsule.Prepare` | transport/ox-fabrics/ox-host.c:152-189 | the capsule holds the descriptors and the user's bytes in order; a size over the limit exactly when they do not fit |
| `SglPath.Capsule.Receive` | transport/ox-fabrics/ox-fabrics.c:258-268 | the controller's copy has the list and the data that were sent |
| `SglPath.Capsule.SetSgl` | transport/ox-fabrics/ox-fabrics.c:124-189 | data blocks name consecutive pieces of the data area up to the first empty descriptor or 16; a segment descriptor is refused |
| `SglPath.SglToPrp` | core/nvmef_ctrl.c:45-124 | succeeds exactly when the descriptors needed for the blocks are usable, with the pages of exactly those |
| `WritePath.PlacedPrps` | core/nvmef_ctrl.c:112-120 | whole-page data blocks laid out one behind the other give consecutive page addresses |
| `WritePath.SendWrite` | transport/ox-fabrics/ox-host.c:212-291 | for any list of data blocks of whole pages: accepted exactly when it fits, and PRP k addresses the bytes of the k-th user block |
| `WritePath.Split` | host/nvme_host.c:356-409 | the commands tile the LBA range and the buffer exactly, if and only if the block count fits 32 bits |
| `WritePath.WrappedExample` | host/nvme_host.c:356-361 | accepted requests of 2^44 bytes and one block more, with no command and with one |
| `WritePath.WriteRequest` | host/nvme_host.c:330-411 | end to end: block j of the buffer is what PRP j % 15 of command j / 15 addresses, for LBA slba + j; every block has such a command when the block count fits 32 bits |
| `HostCtx.OneCallback` | host/nvme_host.c:48-81 | a request is called back at most once, with the status of its lowest-index failed command, and then has no context |
| `HostCtx.CalledWhenComplete` | host/nvme_host.c:48-81 | a request with commands all of which have completed has been called back |
| `HostCtx.OrphanNotCalled` | host/nvme_host.c:363-424 | a request without a command that has a context has not been called back |
| `HostCtx.BeginInv` | host/nvme_host.c:132-160 | taking a context keeps "each request has one context or one callback" |
| `HostCtx.FinishInv` | host/nvme_host.c:62-76 | so does the last completion |
| `HostRequests.FirstFailed` | host/nvme_host.c:65-72 | finds the status of the lowest-index failed command |
| `HostRequests.Host.Begin` | host/nvme_host.c:132-160 | a context from the free list, or none |
| `HostRequests.Host.Store` | host/nvme_host.c:50-54 | the command's own status and nothing else changes |
| `HostRequests.Host.Count` | host/nvme_host.c:56-81 | the completion that counts the last command calls the user and gives the context back; no other does |
| `HostRequests.Host.Rw` | host/nvme_host.c:375-424 | with completions and other requests in between: no command is left that nobody will complete, and from the first failed submission on all are reported as not submitted; a request of no command succeeds and keeps its context |
| `HostRequests.Host.Others` | host/nvme_host.c:48-168 | whatever other threads do, a context with commands still to be handed over is left to its thread, and one without a command is never given back |
| `HostRequests.Host.CompleteRest` | host/nvme_host.c:413-419 | the commands not submitted complete with NVME_NOT_SUBMITTED |
| `CommandIds.DecodesIff` | core/nvmef_ctrl.c:131 | an id decodes to its own queue and slot exactly when 16 bits hold it |
| `CommandIds.QueueSafeIff` | transport/ox-fabrics/ox-host.c:551-556 | all slots of a queue are safe if and only if its id is at most 31 |
| `CommandIds.CidsDistinct` | transport/ox-fabrics/ox-host.c:107 | up to queue 31 no two commands share an id |
| `CommandIds.CidsCollide` | transport/ox-fabrics/ox-host.c:553 | beyond it some do |
| `CqRing.PhaseTells` | core/nvme_ctrl.c:713-752 | the phase bit of the next slot shows exactly whether an entry was posted there, over any number of wraps |
| `CqRing.FullMeans` | core/nvme_ctrl.c:690-694 | the full test means that all slots but one hold entries not freed |
| `CqRing.PostKeeps` | core/nvme_ctrl.c:713-752 | after a post the ring holds the last entries posted with their phases, one more than before |
| `CqRing.CompletionQueue.PostCqe` | core/nvme_ctrl.c:674-752 | an entry is posted with the right phase into a slot the host has freed, so no unread entry is lost |
| `CqRing.CompletionQueue.Enqueue` | core/nvme_ctrl.c:754-784 | posted entries followed by pending ones stay the completions in order |
| `CqRing.CompletionQueue.PostCqes` | core/nvme_ctrl.c:802-818 | posts at most one pending completion |
| `CqRing.CompletionQueue.Doorbell` | core/nvme_ctrl.c:1094-1124 | the head moves, one pending completion is posted if the ring was full; exactly when the pending list is stuck afterwards, and that it then stays so |
| `CqRing.CompletionQueue.HostPoll` | core/nvme_ctrl.c:713-752 | a host that follows the phase bit reads exactly the posted sequence |
| `CqRing.StuckExample` | core/nvme_ctrl.c:802-818 | a ring of three with four completions ends with one of them pending for good |
| `SeqTransfer.Scatter` | ftl/ftl_common.c:258-281 | the plane buffers stand for the next entries of the table |
| `SeqTransfer.Gather` | ftl/ftl_common.c:258-281 | the table gets exactly the entries the planes stand for, and no other entry changes |
| `SeqTransfer.Flash.Write` | ftl/ftl_common.c:238-289 | the pages stand for the first entries of the table, other pages are untouched |
| `SeqTransfer.Flash.Read` | ftl/ftl_common.c:238-289 | the first entries of the table become what the pages stand for, the rest is untouched |
| `SeqTransfer.Flash.WriteThenRead` | ftl/ftl_common.c:238-289 | over any number of pages, what is read back is what was written and nothing else changes |
| `ChMap.PageBounds` | ftl/ox-app/block/oxb-ch-map.c:183-189 | the entries per page, for partial and exactly full last pages |
| `ChMap.SameTable` | ftl/ox-app/block/oxb-ch-map.c:80-132 | two tables whose pages agree with the same flash pages are equal |
| `ChMap.MapTable.constructor` | ftl/ox-app/block/oxb-ch-map.c:36-55 | a new table names its LBAs and is wholly dirty |
| `ChMap.MapTable.Update` | ftl/ox-app/block/oxb-ch-map.c:305-321 | an update marks its page, so clean pages keep agreeing with flash |
| `ChMap.MapTable.FlushPage` | ftl/ox-app/block/oxb-ch-map.c:147-225 | a dirty page is on flash at its new place and every clean page still agrees |
| `ChMap.MapTable.Flush` | ftl/ox-app/block/oxb-ch-map.c:227-303 | afterwards every page is clean, and the tiny table names the new places of the dirty pages and the old ones of the others |
| `ChMap.MapTable.Load` | ftl/ox-app/block/oxb-ch-map.c:57-145 | a zero address resets; otherwise every page of the table agrees with flash |
| `ChMap.MapTable.FlushAndLoad` | ftl/ox-app/block/oxb-ch-map.c:80-132 | flush then load gives the snapshot back exactly, for every length and dirty set |
| `SectorBits.SetBit` | ftl/ox-app/block/oxb-blk-md.c:362-372 | setting a clear sector bit adds one to the number of set bits |
| `BlkMd.SectorExact` | ftl/ox-app/block/oxb-blk-md.c:362-372 | a sector invalidation sets its bit and no other, in no other byte, keeps the count exact, and a repeat changes nothing |
| `BlkMd.OnlyThatSector` | ftl/ox-app/block/oxb-blk-md.c:362-372 | of all pages, planes and sectors of the block exactly the one addressed becomes invalid |
| `BlkMd.OnlyThatPage` | ftl/ox-app/block/oxb-blk-md.c:344-360 | a whole-page invalidation makes invalid exactly the sectors of the page's planes in front of the first wholly invalid one |
| `BlkMd.PageExactIff` | ftl/ox-app/block/oxb-blk-md.c:344-360 | a whole-page invalidation keeps it exact if and only if plane 0 is wholly invalid or all planes are wholly valid |
| `BlkMd.PageRepeat` | ftl/ox-app/block/oxb-blk-md.c:344-360 | repeating a whole-page invalidation changes nothing |
| `BlkMd.PageExample` | ftl/ox-app/block/oxb-blk-md.c:344-360 | a page with one invalid sector makes the count wrong |
| `BlkMd.PageUnmarkedIff` | ftl/ox-app/block/oxb-blk-md.c:344-378 | bits change without the metadata page being marked if and only if plane 0 is not wholly invalid and a later plane is |
| `BlkMd.UnmarkedExample` | ftl/ox-app/block/oxb-blk-md.c:344-378 | plane 1 wholly invalid and plane 0 not: changed, not counted, not marked |
| `BlkMd.RunExact` | ftl/ox-app/block/oxb-blk-md.c:324-379 | over every run of allowed operations the count is the number of invalid sectors and within the block |
| `BlkMd.FillPlanes` | ftl/ox-app/block/oxb-blk-md.c:347-358 | the plane loop stops at the first wholly invalid plane, with the planes before it filled |
| `BlkMd.BlockTable.InvalidateSector` | ftl/ox-app/block/oxb-blk-md.c:324-379 | exactly the sector addressed becomes invalid, in no other block, the count goes up by one if it was not, and an effective change marks the metadata page |
| `BlkMd.BlockTable.InvalidatePage` | ftl/ox-app/block/oxb-blk-md.c:324-379 | exactly the sectors of the page's planes in front of the first wholly invalid one become invalid, and exactly when the metadata page is marked |
| `BlkMd.BlockTable.Reset` | ftl/ox-app/block/oxb-ch-prov.c:405-440 | an erased block has no invalid sector and its metadata page is dirty |
| `BbTbl.WriteKeeps` | ftl/ox-app/block/oxb-bbtbl.c:206-214 | writing where the scan stops keeps the pages with the magic in front, and a good page is then the newest |
| `BbTbl.NewestIsLast` | ftl/ox-app/block/oxb-bbtbl.c:311-330 | the newest table is in the last page the scan passes |
| `BbTbl.ReservedBlock.Flush` | ftl/ox-app/block/oxb-bbtbl.c:155-229 | success makes the table the newest, through wrap and rewrite, exactly when a write worked; and the one case in which success is reported without writing |
| `BbTbl.ReservedBlock.Load` | ftl/ox-app/block/oxb-bbtbl.c:291-348 | the newest table, or an erased block to start from |
| `BbTbl.ReservedBlock.FlushAllThenLoad` | ftl/ox-app/block/oxb-bbtbl.c:155-348 | after any number of successful flushes load returns the last one |
| `BbTbl.LostFlushExample` | ftl/ox-app/block/oxb-bbtbl.c:190-194 | a full block whose erase fails: the flush succeeds and the older table stays the newest |

## Assumptions about what is outside the model

- The global map is a table from LBA to sector with 0 for unmapped; an upsert may fail, the upserts of a
  rollback succeed. The log and its flush succeed or fail without further effect. Fresh sectors come from
  the allocator: not zero, distinct and owned by nobody.
- Loaded block metadata is sane: a good block recorded as used and open has an unwritten page
  (`ChProv.Loaded`). A block that was bad and recorded as used from the start is in no list and is not put
  back: the source would unlink it from a list it is not on.
- ox-mq: one thread at a time completes an entry, and a freed extended entry is not completed again. With
  timeouts, a sweep and a completion call are each one step; the sweep does not take the entry mutex, so a
  finer interleaving would not keep the at-most-once claim. Allocation of extended entries succeeds.
- The host frees completion entries only after reading them. File operations are atomic and durable in order.
- Every command submitted to a host queue completes at most once, which is what `OxMq` proves of its queue.
- Descriptor lengths are at most 2^32 - 65536, so that the capsule size does not wrap on 32 bits.

## Left out

- Sockets, DMA, the PCIe and OCSSD drivers, command line, statistics, output files and CPU affinity.
- The hybrid map and cache modules, whose main operations are not implemented in the source.
- Internals of global map, global provisioning, GC, log, lba_io and ppa_io: contracts only. Of recovery only the effect of write and commit records on the map.
- Map updates and sectors of garbage collection transactions; the map is not touched when they commit.
- Block metadata flush and load as a round trip, and the bad block scan.
- Amended sectors with their log records, and the thread that closes blocks.
- Erase counts, timestamps, GC thresholds and retry sleeps.
- Keyed and chained SGL descriptors, in-command offsets, and the read direction of the fabrics data path.
- The shadow doorbell (`db_addr`) and interrupt coalescing of the completion queue.
- The LightNVM bad block table and mmgr_common.c: the same append-in-one-block pattern once more.
- Allocation failures, and I/O errors of the file-backed media manager and of the map flush.
- 64-bit wrap of LBAs and of file offsets.
- ChProv.Provisioner.Init: requires that a good block recorded as used and open has an unwritten page, because the source would hand out pages behind the end of the block.
- Transaction.Manager.New: requires a free slot, because the source waits in a loop until there is one, and at least one LBA, because the source reads the last entry.
- SglPath.Capsule.Prepare: requires lengths of at most 2^32 - 65536, because beyond that the source's 32-bit size wraps and it copies past the capsule.
- SglPath.Capsule.SetSgl: data block, bit bucket and segment descriptors only; keyed ones are left out.
- WritePath.SendWrite: requires the lengths that Prepare requires.
- SglPath.SglToPrp: requires the list to cover the blocks asked for and to hold no segment descriptor, because beyond that the source reads uninitialised memory or loops.
- TcpStream.Receiver.ProcessMsg: requires declared sizes of at least 3 and at most the buffer, because the source checks neither.
- HostRequests.Host.Begin: one look at the free list stands for the retry loop.
- HostRequests.Host.Rw: the waiting for a context is one look at the free list, and the store and count of a command that was not submitted are not interleaved.
- BbTbl.ReservedBlock.Flush: reads succeed; a failed erase leaves the block as it was, a failed write leaves anything in its page.
