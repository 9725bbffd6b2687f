# KOCL and its eCryptfs: a Dafny model with proofs

KOCL lets kernel code run work on OpenCL devices. A kernel module queues requests, one user-space
helper reads them, drives each through a pipeline of six lists and writes a response back; the
module finds the request by its id and runs the caller's callback. The repository's own client is
a copy of eCryptfs whose pages are encrypted in batches. This project models both and proves what they are for.

**The offload runtime** (`kocl/`)

- `pipeline.dfy` has the helper's operations and its command-queue allocator as functions on a
  state: arbitrary return codes of the services, arbitrary arrivals. `pipeline_safety.dfy` proves
  the invariant of every operation and over every run: each live request is on exactly the one list its
  state names, a queue is busy exactly while one live request of its class holds it, and successful requests
  of one device class are answered in arrival order. `pipeline_liveness.dfy` proves that the oldest
  request always gets a queue, that every request is answered within a number of passes bounded by the
  queues and the requests before it, and that without arrivals the pipeline drains. `pipeline_codes.dfy` proves how the
  services' return codes decide each pass and, over any run, each answer.
  `helper.dfy` is the class whose methods and loops compute those functions in place.
- `offload_system.dfy` composes kernel module and helper into one transition system and proves that
  every request is in exactly one place, that no response misses its request, and that every caller
  gets its own answer once. `offload_liveness.dfy` adds the order of the helper's loop and bounds the passes from an
  offload to its callback. `offload.dfy` has the kernel's calls on request structs that are changed in place, and
  proves that each takes the step of that system which it is for; `offload_runs.dfy` follows whole runs of them.
- `mempool.dfy` and `mempool_dev.dfy` have the first-fit unit allocator over the three pools, as functions
  and as bitmap loops, the blocks that callers hold, and the translation of a request's pointers.
- `intrusive_list.dfy` has the circular lists at the level of their links, and the safe traversal
  under operations that unlink the current node or move it to one of two other lists.

**eCryptfs** (`gaes/ecryptfs_4.7_kocl/`)

- File names: `packet_length.dfy`, `name_codec.dfy`, `name_codec_loops.dfy`, `cipher_codes.dfy`, `tag70.dfy`,
  `packet_buffer.dfy`, `tag70_packet.dfy`, `filename.dfy`, `filename_drivers.dfy`. From padding and encryption through
  tag 70 framing and 6-bit text and back; and the name length a mount reports.
- File headers: `key_packets.dfy`, `key_set.dfy`, `key_packet_set.dfy`, `auth_tok_search.dfy`. Tags 1, 3 and 11, the set
  they form, its parser, and the search for a token that opens the file.
- File contents: `page_crypt.dfy`, `lower_file.dfy`, `file_layout.dfy`, `truncate.dfy`. Batched against
  page-at-a-time encryption, and truncation of an encrypted file.
- Daemon messages: `msg_ctx.dfy`, `msg_ctx_table.dfy`. Slots, sequence numbers, timeouts and stale replies.

In each part a function, or a transition system made of functions, says what an operation computes; the
properties are lemmas about it; and methods written in the shape of the C code, with its loops,
cursors, arrays and lists, are proved to compute it.

What the code does not promise is shown with an input and an exact condition: the length format reads
back below 8384 octets only (`PacketLength.LengthRoundTrip`), `ecryptfs_write` is not a general splice
(`FileLayout.WriteIsSplice`), sizes are cut to 32 bits in `kocl_malloc` and in the helper address translation
(`Mempool.ReqUnitsCover`, `Mempool.WithinCoversPool`), a stale reply can be taken from exchange 2^32 + 1 on
(`MsgCtx.StaleRepliesExactly`), and a name comes back only if it and the parser's buffers fit
(`Filename.FilenameRoundTrip`). That the lower size is right only for extents that are powers of two
(`FileLayout.LowerSizeExact`) is a limit of the formula; the code sets no other extent size.

Assumptions:

- `clFinish` succeeds; the services' return codes and whether a service is found are arbitrary inputs.
- Each region under a lock is one step; `kocl_free` is one step although it reads `alloc_sz` before it takes the lock.
- Pools start with `alloc_sz` all zero. `kocl/main.c:763` clears `nunits` bytes rather than `nunits` entries.
- `poll` reports the device readable exactly when `reqs` is not empty.
- A struct is not offloaded again while an earlier offload of it is under way, so ids in flight are distinct.
- Cipher and hash are uninterpreted; decryption undoes encryption on whole blocks, whose size divides a page.
  The calls of the crypto API and memory allocation succeed. Where a buffer lies within its page is an input.
- Codes that the repository takes from `linux/ecryptfs.h`, which is not part of it, are those of RFC 2440, section 9.2;
  salt, signature and largest encrypted key have 8, 8 and 512 octets.

## Model

| member | source | states |
|---|---|---|
| PipelineSafety.FreeSlotIsLowest | kocl/gpuops.c:253-286 | the allocator returns the lowest free queue of the request's device class, and none exactly when all eight are busy |
| PipelineSafety.FinishPostInv | kocl/helper.c:289-300 | finishing a request keeps the whole invariant: lists, order, queue ownership |
| PipelineSafety.PostExecInv | kocl/helper.c:272-287 | moving a request on after its post-processing, or to done_reqs with its queue still held when that fails, keeps the invariant |
| PipelineSafety.LaunchExecInv | kocl/helper.c:258-270 | the same of a launch: a failed one goes to done_reqs and holds its queue until it is answered |
| PipelineSafety.PrepareExecInv | kocl/helper.c:237-256 | a granted queue is held by this request alone, also when prepare then fails and the request waits on done_reqs; the invariant is kept |
| PipelineSafety.RequestAllocMemInv | kocl/helper.c:224-235 | moving to the memory stage keeps the invariant |
| PipelineSafety.ServiceDoneInv | kocl/helper.c:302-316 | answering takes exactly the answered request off all_reqs and keeps the invariant, so its queue is free again |
| PipelineSafety.InitServiceRequestInv | kocl/helper.c:151-176 | taking in a new request, which fails at once when its service is unknown, keeps the invariant |
| PipelineSafety.PassInv | kocl/helper.c:333-347 | one pass of the main loop keeps the invariant, whatever the services return and whatever arrives |
| PipelineSafety.RunInv | kocl/helper.c:333-347 | any number of passes keeps the invariant |
| PipelineSafety.Partition | kocl/helper.c:126-176 | a live request is on exactly one list, once, and that list is the one its state names; every ticket on all_reqs has its item |
| PipelineSafety.QueueOwnership | kocl/gpuops.c:253-299 | a busy flag is set exactly when one live request of that class holds that queue, and PREPARED, RUNNING and POST_EXEC requests always hold one |
| PipelineSafety.DeviceFifo | kocl/helper.c:237-347 | over any run, successful requests of one device class get their responses in arrival order |
| PipelineLiveness.OldestGetsQueue | kocl/helper.c:237-256 | when its turn comes the oldest live request always finds a free queue of its class |
| PipelineLiveness.Capacity | kocl/gpuops.c:253-299 | prepared and running requests together are at most the 3*8 queues |
| PipelineLiveness.FailureIsAnswered | kocl/helper.c:126-132 | a request whose prepare, launch or post-processing fails stands on done_reqs and keeps its queue; the next pass answers it with the code of that failure and only then is the queue free |
| PipelineLiveness.EveryRequestAnswered | kocl/helper.c:318-347 | a request with u unanswered requests up to itself is answered within 29*u passes, whatever arrives meanwhile and whatever services return |
| PipelineLiveness.OneListPerPass | kocl/helper.c:333-347 | in one pass no request moves more than one stage on, except to DONE on failure, and what was DONE is answered |
| PipelineLiveness.PassProgress | kocl/helper.c:333-347 | with something live and no arrival a pass strictly decreases the stages still to be done |
| PipelineLiveness.Drain | kocl/helper.c:333-347 | without arrivals everything is answered within six passes per live request |
| PipelineCodes.PassPrepares | kocl/helper.c:237-256 | up to the first item that a pass prepares, if any, every item on memdone_reqs is passed over with all eight queues of its class busy, or failed with its own code and is done; the others are not tried |
| PipelineCodes.NoClassBlocks | kocl/gpuops.c:253-286 | an item left at the memory stage although its class has a free queue afterwards stood behind the one item that was prepared |
| PipelineCodes.PassLaunches | kocl/helper.c:258-270 | the first prepared item runs, or is done with the code of its launch; the others stay |
| PipelineCodes.PassPosts | kocl/helper.c:272-287 | running items in front of the first success are done with their codes, that one is posted, the others stay |
| PipelineCodes.ItemAdvances | kocl/helper.c:333-347 | in one pass every live item is answered with its code, or stays, or goes where the code of its own service sends it |
| PipelineCodes.AnswersByCodes | kocl/helper.c:126-347 | over any run an answer is 0 exactly when the service was found and the prepare, launch and post made for the request all returned 0, and else the code of the first call that failed, behind which none was made |
| PipelineCodes.StandsByCodes | kocl/helper.c:126-347 | and until its answer a request stands where the calls made for it have brought it |
| KoclTypes.ChannelsApart | kocl/gpuops.c:253-286 | channels 2 and 3 have devices of their own, all others share the first |
| Helper.KoclHelper.constructor | kocl/helper.c:66-104 | the helper starts with empty lists and free queues |
| Helper.KoclHelper.GpuAllocCmdQueue | kocl/gpuops.c:253-286 | scans the device's flags, sets the first free one, and changes no other |
| Helper.KoclHelper.GpuFreeCmdQueue | kocl/gpuops.c:288-299 | clears the flag of the queue the request holds and no other |
| Helper.KoclHelper.InitServiceRequest | kocl/helper.c:151-176 | refines the function Pipeline.InitServiceRequest on the lists |
| Helper.KoclHelper.RequestAllocMem | kocl/helper.c:224-235 | refines Pipeline.RequestAllocMem |
| Helper.KoclHelper.PrepareExec | kocl/helper.c:237-256 | refines Pipeline.PrepareExec: without a free queue nothing changes, and a failure of prepare leaves the queue with the request |
| Helper.KoclHelper.LaunchExec | kocl/helper.c:258-270 | refines Pipeline.LaunchExec |
| Helper.KoclHelper.PostExec | kocl/helper.c:272-287 | refines Pipeline.PostExec |
| Helper.KoclHelper.FinishPost | kocl/helper.c:289-300 | refines Pipeline.FinishPost |
| Helper.KoclHelper.ServiceDone | kocl/helper.c:302-316 | writes the response of the first done request and refines Pipeline.ServiceDone |
| Helper.KoclHelper.ProcessPrepared | kocl/helper.c:318-331 | over prepared_reqs exactly the first item is tried, whether its launch fails or not, as Pipeline.LaunchSome |
| Helper.KoclHelper.ProcessMemdone | kocl/helper.c:318-331 | over memdone_reqs items without a free queue are passed over, failures go to done_reqs and the pass stops behind the first success, as Pipeline.PrepareSome |
| Helper.KoclHelper.GetNextServiceRequest | kocl/helper.c:178-222 | a read that delivers a request starts it, one that does not changes nothing |
| Helper.KoclHelper.MainLoop | kocl/helper.c:333-347 | the loops in the order of the code compute Pipeline.Run, so all of the above holds of the lists |
| OffloadSystem.FindUnlinksFirst | kocl/main.c:369-387 | the lookup finds the first request with the id, that one leaves the list, and without one nothing changes |
| OffloadSystem.StepInv | kocl/main.c:458-570 | every step of kernel or helper keeps the system invariant, with callers offloading between any two |
| OffloadSystem.StepConserves | kocl/main.c:95-194 | every step keeps the places of the offloaded requests: nothing is lost or duplicated |
| OffloadSystem.OffloadsRecorded | kocl/main.c:95-182 | the requests of the system are, in order and with all they were given, those that its callers handed in |
| OffloadSystem.ExactlyOnce | kocl/main.c:95-212 | in every reachable state each offloaded request is in exactly one of reqs, in hand, rtdreqs or completed, once |
| OffloadSystem.ListsAgree | kocl/helper.c:151-176 | outside a read or write the ids on the kernel's rtdreqs are those on the helper's all_reqs, in order |
| OffloadSystem.ResponseFindsRequest | kocl/main.c:505-570 | the request found for a response is the one the answered item came from |
| OffloadSystem.OwnAnswers | kocl/main.c:505-570 | each request is completed at most once, with its own item's code, and each caller's callback ran once with its own data and code |
| OffloadSystem.SyncGetsItsOwn | kocl/main.c:146-194 | a synchronous caller gets back its own kdata and callback and the code of its own completion |
| OffloadSystem.DoneWhenCompleted | kocl/main.c:131-141 | a synchronous call is marked done exactly when its own request has been completed |
| OffloadLiveness.MoveKeeps | kocl/helper.c:333-347 | with callers stepping in between, every iteration of the helper's loop over the system is one pass of the pipeline |
| OffloadLiveness.NeverStuck | kocl/helper.c:333-347 | in every state a run of the loop reaches, the helper has a next step |
| OffloadLiveness.EveryCallAnswered | kocl/main.c:95-194 | whatever callers offload and services return, an offloaded request with u unanswered ones up to itself reaches its caller within 30*u passes, wherever it stands: its callback has run with its own data and code, or its synchronous call may return |
| OffloadLiveness.PassEndsSoon | kocl/helper.c:333-347 | with n items on done_reqs the helper completes its pass with its own step 2*n + 4 at the latest, whatever callers do meanwhile |
| OffloadLiveness.EveryCallAnsweredInSteps | kocl/main.c:95-194 | the bound of 30*u passes in the helper's own steps: four a pass and two for each answer given in the meantime |
| Offload.KoclDev.NextRequestId | kocl/main.c:198-212 | the next id, wrapping from the largest int to 0 |
| Offload.IdsDistinct | kocl/main.c:198-212 | ids repeat only after 2^31 requests |
| Offload.AsyncStep | kocl/main.c:95-125 | from every state that the device stands for, queueing a caller's struct is the system's step OffloadAsync |
| Offload.SyncStep | kocl/main.c:146-182 | replacing kdata and callback of a struct and queueing it is the step OffloadSync, whose record keeps the caller's own |
| Offload.FinishStep | kocl/main.c:183-194 | putting kdata and callback back from the record of the call is the step SyncReturn |
| Offload.TakeStep | kocl/main.c:465-489 | taking the first struct off reqs is the step ReadTake, and the struct is that of the request in hand |
| Offload.ParkStep | kocl/main.c:491-498 | appending it to rtdreqs is the step ReadPark, whatever was offloaded in between |
| Offload.FindStep | kocl/main.c:369-387 | unlinking the first struct with the id is the step WriteFind, and it is the struct of the request found |
| Offload.CompleteStep | kocl/main.c:526-562 | setting the code and running the callback found in the struct is the step WriteComplete: a caller's callback is recorded, the module's marks its call's record |
| Offload.RepresentsLinked | kocl/main.c:505-562 | in every such state the structs on rtdreqs are the ones filed under their ids, and those used synchronously point to live records |
| Offload.KoclDev.constructor | kocl/main.c:923-924 | an empty device stands for the system's first state |
| Offload.KoclDev.OffloadAsync | kocl/main.c:95-125 | takes the step OffloadAsync on the structs |
| Offload.KoclDev.OffloadSyncStart | kocl/main.c:146-182 | takes the step OffloadSync on the structs, with a new record |
| Offload.KoclDev.OffloadSyncFinish | kocl/main.c:183-194 | takes the step SyncReturn on struct and record |
| Offload.KoclDev.ReadTake | kocl/main.c:465-489 | takes the step ReadTake and delivers the id, or returns without effect when reqs is empty |
| Offload.KoclDev.ReadPark | kocl/main.c:491-498 | takes the step ReadPark |
| Offload.KoclDev.FindRequest | kocl/main.c:369-387 | the first request with the id, taken off the list when asked |
| Offload.KoclDev.Write | kocl/main.c:505-570 | fails with nothing changed exactly when no parked struct has the id, else completes the first that has; for a response of the helper it takes the steps WriteFind and WriteComplete, and in a state of the system it never fails |
| OffloadRuns.RunsAreSystemRuns | kocl/main.c:95-570 | any calls of the module and steps of the helper from an empty device stand for a run of the system, and every synchronous caller waits on its own struct and record from its call to its return |
| OffloadRuns.CallbacksSeeTheirOwn | kocl/main.c:505-570 | so on the structs the callbacks run so far are exactly those of the answered asynchronous requests in the order of their answers, each with its own kdata and code |
| OffloadRuns.WaitersGetTheirOwn | kocl/main.c:146-194 | and a synchronous caller whose record is marked finds the code of its own completion in its struct and its own kdata and callback in its record |
| Mempool.FirstFitIsLowest | kocl/main.c:291-305 | the search returns the lowest run of free units that is long enough, and none exactly when there is none |
| Mempool.MallocTakesLowest | kocl/main.c:291-305 | allocation fails exactly without a run, else takes exactly the lowest one |
| Mempool.MallocInv | kocl/main.c:262-304 | allocation keeps blocks disjoint and in range and bitmap and sizes in agreement |
| Mempool.FreeInv | kocl/main.c:307-361 | so does freeing, through any unit |
| Mempool.FreeReleasesBlock | kocl/main.c:335-359 | freeing through a head unit releases exactly its block; any other unit changes nothing |
| Mempool.FreeUndoesMalloc | kocl/main.c:335-359 | free after malloc restores bitmap and sizes exactly |
| Mempool.ServeInv | kocl/main.c:262-361 | a call changes only the pool of its channel |
| Mempool.PoolSafety | kocl/main.c:262-361 | after any calls every pool's blocks are disjoint, in range and described by its bitmap and sizes |
| Mempool.HeldAgrees | kocl/main.c:262-361 | over any calls the sizes describe exactly what callers were given and have not freed, by the history of calls and results alone |
| Mempool.HoldersDisjoint | kocl/main.c:262-361 | no two callers hold a common unit, and a unit is in use exactly when a caller holds it |
| Mempool.ReqUnitsCover | kocl/main.c:262-264 | the reserved units hold the request exactly up to 2^32-1 units |
| Mempool.ReqUnitsTooFew | kocl/main.c:262-264 | 2^32 units are cut to none |
| Mempool.WithinCoversPool | kocl/kocl.h:18-24 | the address test covers the whole pool exactly when it is smaller than 4 GiB |
| Mempool.TranslateBlocks | kocl/main.c:407-456 | live blocks reach the helper at the same offsets in disjoint ranges |
| Mempool.TranslateReaches | kocl/kocl.h:18-24 | in pools below 4 GiB each address of the pool, and no other, is rebased, into the same live block of the helper's mapping |
| Mempool.UnitIndexFinds | kocl/main.c:335-345 | an address leads to a unit of the pool exactly when it lies in the pool, and then to the unit it is in |
| Mempool.FreeByAddress | kocl/main.c:335-359 | an address in the first unit of a live block releases that block; any other address, in the pool or not, changes nothing |
| MempoolDev.GmPool.FindNextZeroBit | kocl/main.c:291-298 | the first clear bit from a start, by a loop |
| MempoolDev.GmPool.FindNextBit | kocl/main.c:291-298 | the first set bit in a range, by a loop |
| MempoolDev.GmPool.FindNextZeroArea | kocl/main.c:291-298 | the search loop computes the lowest fit |
| MempoolDev.GmPool.Take | kocl/main.c:291-304 | marks the found run and records its size, as Mempool.Malloc |
| MempoolDev.GmPool.GiveBack | kocl/main.c:335-359 | clears the run a unit heads, as Mempool.Free |
| MempoolDev.KoclMem.KoclMalloc | kocl/main.c:262-304 | picks the pool by channel and leaves the other two alone |
| MempoolDev.KoclMem.KoclFree | kocl/main.c:307-361 | releases the block in whose first unit the address lies, in the pool of the channel, or changes nothing; the other two pools stay |
| MempoolDev.GmPool.Rebase | kocl/kocl.h:18-24 | computes the translation of one pointer |
| MempoolDev.KoclMem.FillKuRequest | kocl/main.c:407-456 | the three pointers of a request reach the helper translated by the pool of its channel |
| IntrusiveList.ListAddBetween | kocl/list.h:26-32 | the four link updates, also when both neighbours are the head |
| IntrusiveList.ListAddTail | kocl/list.h:39-42 | appends to the sequence the ring represents, touching only the head, the last and the new node |
| IntrusiveList.ListDel | kocl/list.h:44-55 | removes a node from the sequence, touching only it and its neighbours, and clears its links |
| IntrusiveList.Visits | kocl/helper.c:318-331 | how many nodes a traversal visits: all, or up to the first 0 when it may stop there |
| IntrusiveList.Apply | kocl/helper.c:224-300 | an operation that leaves its node, frees it or moves it to either of two other lists keeps all three rings with disjoint nodes |
| IntrusiveList.ProcessRequest | kocl/helper.c:318-331 | the safe traversal runs the operation once on each initial node in order up to the early stop, although the operation unlinks or moves the node it is at; the moved nodes stand behind the next list and the done list in the order of the visits |
| IntrusiveList.StopsBehindFirstSuccess | kocl/helper.c:272-287 | of post-processing: the failures before the first success go to the done list, that success alone to the next list, the rest stays unvisited |
| IntrusiveList.TriesFirstOnly | kocl/helper.c:258-270 | of launching, which reports 0 also when it fails: exactly the first node is visited and goes where its act says |
| IntrusiveList.PassesOverAndStops | kocl/helper.c:237-256 | of preparing: of the visited nodes the last alone goes to the next list, and only if it succeeds; all others split in their order into those that stay and the failures on the done list |
| PacketLength.LengthRoundTrip | gaes/ecryptfs_4.7_kocl/keystore.c:95-155 | a written length reads back, with anything behind it, exactly for sizes below 8384 |
| PacketLength.LengthRead | gaes/ecryptfs_4.7_kocl/keystore.c:95-124 | the parser refuses exactly a first octet from 224 on, and what it reads are the octets the writer stores for that size |
| PacketLength.LengthNotReadBack | gaes/ecryptfs_4.7_kocl/keystore.c:136-155 | 8384 is written with a first octet the parser refuses, 16576 reads back as 0 |
| PacketLength.EcryptfsWritePacketLength | gaes/ecryptfs_4.7_kocl/keystore.c:136-155 | stores one or two octets at the cursor and touches nothing else, or refuses from 65536 on |
| PacketLength.EcryptfsParsePacketLength | gaes/ecryptfs_4.7_kocl/keystore.c:95-124 | the size and the octets it took, or the error |
| NameCodec.DecodeEncode | gaes/ecryptfs_4.7_kocl/crypto.c:1950-2067 | decoding an encoded string gives it back, padded with zeros to a multiple of 3 |
| NameCodec.EncodeDecode | gaes/ecryptfs_4.7_kocl/crypto.c:1950-2067 | encoding a decoded text gives it back exactly when it is of the alphabet and a multiple of 4 long |
| NameCodec.CharInverts | gaes/ecryptfs_4.7_kocl/crypto.c:1916-1941 | the reverse map inverts the alphabet, and only on it |
| NameCodec.EncodeInAlphabet | gaes/ecryptfs_4.7_kocl/crypto.c:1985-1999 | every encoded character is one of the 64 |
| NameCodecLoops.EncodeForFilename | gaes/ecryptfs_4.7_kocl/crypto.c:1950-2003 | the loop with its padded last block fills exactly its part of the buffer with the encoding; without a buffer it reports the size |
| NameCodecLoops.PutField | gaes/ecryptfs_4.7_kocl/crypto.c:2042-2062 | one character of the 0/6/4/2 bit machine finishes an octet and begins the next |
| NameCodecLoops.DecodeFromFilename | gaes/ecryptfs_4.7_kocl/crypto.c:2005-2067 | the bit machine computes the decoding and for every length writes nowhere at or behind ecryptfs_max_decoded_size |
| CipherCodes.CodeNamesCipher | gaes/ecryptfs_4.7_kocl/crypto.c:1109-1176 | a cipher with a code is found again under it, and AES-192 alone has its code |
| CipherCodes.HasCode | gaes/ecryptfs_4.7_kocl/crypto.c:1109-1152 | exactly the ciphers of the table have a code, AES with keys of 16, 24 and 32 octets only |
| CipherCodes.CodesDiffer | gaes/ecryptfs_4.7_kocl/crypto.c:1126-1152 | two ciphers share a code exactly when they are the same, with the same key size if it is AES |
| CipherCodes.AesCodes | gaes/ecryptfs_4.7_kocl/crypto.c:1126-1140 | the codes of AES are 7, 8 and 9 in the order of its key sizes |
| CipherCodes.NamesOnlyCodes | gaes/ecryptfs_4.7_kocl/crypto.c:1161-1176 | a code names a cipher exactly when it is the code of one |
| CipherCodes.EcryptfsCodeForCipherString | gaes/ecryptfs_4.7_kocl/crypto.c:1126-1152 | the loop over the table and the AES cases give the code, or 0 |
| CipherCodes.EcryptfsCipherCodeToString | gaes/ecryptfs_4.7_kocl/crypto.c:1161-1176 | the loop that keeps the last match gives the name, or none |
| Tag70.HexRoundTrip | gaes/ecryptfs_4.7_kocl/crypto.c:53-78 | a lower-case hexadecimal signature survives being stored as octets |
| Tag70.SmallScatters | gaes/ecryptfs_4.7_kocl/crypto.c:277-306 | up to one octet more than a page any place fits two scatterlist entries, up to two pages a page boundary does |
| Tag70.ScattersExactly | gaes/ecryptfs_4.7_kocl/crypto.c:277-306 | exactly what ends within two pages from the one it begins in goes through two entries |
| Tag70.AlignedIsLeast | gaes/ecryptfs_4.7_kocl/keystore.c:661-672 | the padded size is a multiple of the block size with room for 16 octets, the separator and the name, and less than a block more |
| Tag70.PadIsHashStream | gaes/ecryptfs_4.7_kocl/keystore.c:786-804 | the padding is the stream of repeated hashes of the key with its zeros replaced |
| Tag70.NameInPadded | gaes/ecryptfs_4.7_kocl/keystore.c:786-807 | the separator is the first zero of a padded name, whatever octets the name has |
| Tag70.ParseWritten | gaes/ecryptfs_4.7_kocl/keystore.c:908-1118 | with anything behind the packet the parser finds the name and the packet's end, or refuses for its own buffers or the name's size |
| Tag70.BodyIsEncrypted | gaes/ecryptfs_4.7_kocl/keystore.c:625-870 | what is written holds the encryption, under the key the mount names, of at least 16 octets without a zero, a zero and the name |
| Tag70.Tag70Accepted | gaes/ecryptfs_4.7_kocl/keystore.c:908-1118 | a name is read only from a whole packet of a known key and cipher whose body decrypts to octets without a zero, a zero and that name |
| Tag70Packet.VirtToScatterlist | gaes/ecryptfs_4.7_kocl/crypto.c:277-306 | the entries cover the buffer page by page; too few entries are an error |
| Tag70Packet.FillRandom | gaes/ecryptfs_4.7_kocl/keystore.c:786-804 | the loop over the hash chain leaves no zero in the padding |
| Tag70Packet.EcryptfsWriteTag70Packet | gaes/ecryptfs_4.7_kocl/keystore.c:625-870 | stores exactly the packet within the room given, or returns the error of the first check that fails; without a destination it returns the size |
| Tag70Packet.EcryptfsParseTag70Packet | gaes/ecryptfs_4.7_kocl/keystore.c:908-1118 | the cursor's walk through the packet computes ParseTag70, all error cases included |
| Filename.FirstPassSuffices | gaes/ecryptfs_4.7_kocl/crypto.c:1647-1705 | encrypting a name succeeds exactly under the stated conditions; the size of the first pass never is too small for the second |
| Filename.FilenameRoundTrip | gaes/ecryptfs_4.7_kocl/crypto.c:2084-2249 | decoding a lower name gives the upper name back exactly when that has 1 to PATH_MAX - 1 octets and the parser's own buffers fit, for every block size |
| Filename.NamesComeBack | gaes/ecryptfs_4.7_kocl/crypto.c:2084-2249 | names that leave a block and 16 octets of a page free are encrypted and come back wherever all buffers lie |
| Filename.LowerNamesDiffer | gaes/ecryptfs_4.7_kocl/crypto.c:2084-2176 | two names have the same lower name exactly when they are the same |
| Filename.PlainNamesStay | gaes/ecryptfs_4.7_kocl/crypto.c:2084-2249 | a mount that does not encrypt names keeps every name, both ways |
| Filename.ShownAsIs | gaes/ecryptfs_4.7_kocl/crypto.c:2190-2249 | a directory shows a lower name unchanged exactly when it is no encrypted one or its packet is refused |
| Filename.LowerNameIsPortable | gaes/ecryptfs_4.7_kocl/crypto.c:2084-2176 | a lower name has no zero and no slash |
| FilenameDrivers.EncryptFilenameBuffer | gaes/ecryptfs_4.7_kocl/crypto.c:1647-1705 | the two passes of the writer into a buffer of the first one's size |
| FilenameDrivers.EcryptfsEncryptAndEncodeFilename | gaes/ecryptfs_4.7_kocl/crypto.c:2084-2176 | the allocated buffer holds prefix, text and a zero |
| FilenameDrivers.EcryptfsDecodeAndDecryptFilename | gaes/ecryptfs_4.7_kocl/crypto.c:2190-2249 | decodes into a buffer of ecryptfs_max_decoded_size and parses, or copies |
| NameLength.ReportedLengthFits | gaes/ecryptfs_4.7_kocl/crypto.c:2253-2298 | every non-empty name no longer than reported has a lower name within the lower limit, for every limit from 24 on and every block size |
| NameLength.CommonCaseExact | gaes/ecryptfs_4.7_kocl/crypto.c:2251-2281 | for the limit 255 and blocks of 8 or 16 the names that fit are exactly those up to 143 |
| NameLength.CommonCaseReported | gaes/ecryptfs_4.7_kocl/crypto.c:2276-2281 | for the limit 255 and blocks of 8 or 16 a name fits exactly when it is no longer than reported |
| NameLength.EstimateIsClose | gaes/ecryptfs_4.7_kocl/crypto.c:2283-2298 | in every other case at most a block and 3 octets are given away |
| NameLength.PlainNamesReported | gaes/ecryptfs_4.7_kocl/crypto.c:2261-2264 | without encryption a name fits exactly when it is no longer than reported |
| NameLength.LowerNameHasSize | gaes/ecryptfs_4.7_kocl/keystore.c:661-684 | the size of a lower name is the one the bound computes with |
| KeyPackets.Tag3RoundTrip | gaes/ecryptfs_4.7_kocl/keystore.c:1379-1534 | a tag 3 packet reads back with salt, 65536 iterations, encrypted key, cipher and key size, AES-192 included |
| KeyPackets.Tag11RoundTrip | gaes/ecryptfs_4.7_kocl/keystore.c:1553-1630 | a tag 11 packet reads back with its contents |
| KeyPackets.Tag1RoundTrip | gaes/ecryptfs_4.7_kocl/keystore.c:1247-1358 | a tag 1 packet reads back with signature and encrypted key |
| KeyPackets.Tag3Accepted | gaes/ecryptfs_4.7_kocl/keystore.c:1379-1534 | a tag 3 packet is accepted only with version 4, the code of a cipher that can be set up, an MD5 salted and iterated key and a length that matches |
| KeyPackets.Tag11Accepted | gaes/ecryptfs_4.7_kocl/keystore.c:1553-1630 | a tag 11 packet only as binary data with a name of 8 octets, within the bounds for contents and packet |
| KeyPackets.Tag1Accepted | gaes/ecryptfs_4.7_kocl/keystore.c:1247-1358 | a tag 1 packet only with version 3, a signature and a key within its bound |
| KeyPackets.Tag11IsLiteral | gaes/ecryptfs_4.7_kocl/keystore.c:2134-2182 | a written tag 11 packet begins as the literal data of RFC 2440, section 5.9, with the name _CONSOLE and no date |
| KeyPackets.IterationsWritten | gaes/ecryptfs_4.7_kocl/keystore.c:1490-1494 | the stored octet 0x60 reads as 65536 iterations |
| KeyPackets.IterationsAre | gaes/ecryptfs_4.7_kocl/keystore.c:1490-1494 | the coded counts begin at 1024, grow by sixteenths of a power of two and double every 16 codes |
| KeyPackets.WrappedIsWhole | gaes/ecryptfs_4.7_kocl/keystore.c:2241-2250 | the wrapped key of an AES file fills whole blocks, with less than a block more than the key |
| KeyPackets.Tag1IsRsa | gaes/ecryptfs_4.7_kocl/keystore.c:2082-2121 | a written tag 1 packet has version 3, the signature and the code of RSA, as RFC 2440, section 5.1 |
| KeySet.WritersFit | gaes/ecryptfs_4.7_kocl/keystore.c:2082-2121 | a packet is never larger than the size its writer asked for |
| KeySet.SetFits | gaes/ecryptfs_4.7_kocl/keystore.c:2499-2504 | a generated set leaves room for its last byte in the budget |
| KeySet.RecordWritten | gaes/ecryptfs_4.7_kocl/keystore.c:2344-2402 | a record is written exactly when it has a key, its cipher a code and each of its packets the room its writer asks for; it takes its size, or fails with its own error |
| KeySet.GenerateSucceeds | gaes/ecryptfs_4.7_kocl/keystore.c:2422-2512 | a set is generated exactly when every record is writable in what the earlier ones leave and one octet remains |
| KeySet.GenerateFails | gaes/ecryptfs_4.7_kocl/keystore.c:2422-2512 | else the error is that of the first record that is not writable, or -EIO for the missing octet |
| KeySet.TokensAccepted | gaes/ecryptfs_4.7_kocl/keystore.c:1776-1873 | whatever the octets are, every token the parser adds has a signature of 8 octets and a key within the bound, and a cipher it takes over can be set up |
| KeySet.PacketsWithinPage | gaes/ecryptfs_4.7_kocl/keystore.c:1800-1867 | an accepted tag 1 or tag 3 packet ends within the page's first 4088 octets; of the tag 11 packet behind it only the length is bounded |
| KeySet.SetRoundTrip | gaes/ecryptfs_4.7_kocl/keystore.c:1776-1873 | parsing a generated set within the page bound consumes exactly what was written, stops at its last byte and yields the tokens last first with the file's cipher and key size |
| KeySet.PushedReverses | gaes/ecryptfs_4.7_kocl/keystore.c:1345-1346 | adding each token at the front reverses the order |
| KeyPacketSet.WriteTag1Packet | gaes/ecryptfs_4.7_kocl/keystore.c:2082-2121 | appends the packet at the cursor and lowers the budget by its size, or touches nothing |
| KeyPacketSet.WriteTag11Packet | gaes/ecryptfs_4.7_kocl/keystore.c:2134-2182 | likewise for tag 11 |
| KeyPacketSet.WriteTag3Packet | gaes/ecryptfs_4.7_kocl/keystore.c:2344-2402 | likewise for tag 3; an unknown cipher is refused after the header was begun |
| KeyPacketSet.WriteAll | gaes/ecryptfs_4.7_kocl/keystore.c:2444-2498 | at every round what is written and what remains add up to the budget, and nothing behind it is touched |
| KeyPacketSet.EcryptfsGenerateKeyPacketSet | gaes/ecryptfs_4.7_kocl/keystore.c:2422-2512 | the page holds the set and its last byte, or the error is returned with length 0 |
| KeyPacketSet.ParseTag3Packet | gaes/ecryptfs_4.7_kocl/keystore.c:1379-1534 | the cursor's walk computes ParseTag3, error cases included |
| KeyPacketSet.ParseTag11Packet | gaes/ecryptfs_4.7_kocl/keystore.c:1553-1630 | the same for tag 11 |
| KeyPacketSet.ParseTag1Packet | gaes/ecryptfs_4.7_kocl/keystore.c:1247-1358 | the same for tag 1 |
| KeyPacketSet.ParsePackets | gaes/ecryptfs_4.7_kocl/keystore.c:1800-1867 | the loop over the packets computes Parse, with the bound of a tag 3 packet reused for the tag 11 packet behind it |
| AuthTokSearch.SearchIsWalk | gaes/ecryptfs_4.7_kocl/keystore.c:1881-1964 | starting again after every failure comes to one walk along the list |
| AuthTokSearch.SearchComplete | gaes/ecryptfs_4.7_kocl/keystore.c:1881-1964 | the search succeeds exactly when some token has a key and decrypts, with the first such token, and takes only failed ones off the list |
| AuthTokSearch.SearchLeaves | gaes/ecryptfs_4.7_kocl/keystore.c:1881-1964 | in front of the token that opens the file exactly those with a key leave the list, and the others keep their order |
| AuthTokSearch.GeneratedHeaderOpens | gaes/ecryptfs_4.7_kocl/keystore.c:1776-1981 | a file with a generated header opens exactly when the token of one of its records has a key and decrypts |
| AuthTokSearch.FindAuthTok | gaes/ecryptfs_4.7_kocl/keystore.c:1881-1964 | the loop ends and computes the search |
| AuthTokSearch.EcryptfsParsePacketSet | gaes/ecryptfs_4.7_kocl/keystore.c:1776-1981 | the errors of the two halves and the token that opened the file |
| PageCrypt.EcbSlice | gaes/ecryptfs_4.7_kocl/crypto.c:422-463 | under ECB whole blocks encrypt alike inside a larger text and alone |
| PageCrypt.BlockOfEcb | gaes/ecryptfs_4.7_kocl/crypto.c:402-407 | each block of the result is the cipher of that block |
| PageCrypt.BatchedPage | gaes/ecryptfs_4.7_kocl/crypto.c:465-545 | one request over all pages gives every page what it gets alone |
| PageCrypt.DecryptsToLast | gaes/ecryptfs_4.7_kocl/crypto.c:402-407 | after any list of pages the lower file decrypts at each index to the octets last given for it and holds what it held elsewhere |
| LowerFile.LowerInode.CryptExtents | gaes/ecryptfs_4.7_kocl/crypto.c:422-463 | encrypting a page extent by extent encrypts the page, for every extent size that divides it |
| LowerFile.LowerInode.EncryptPage | gaes/ecryptfs_4.7_kocl/crypto.c:563-614 | the encrypted page is written at its lower offset |
| LowerFile.LowerInode.EncryptPages2 | gaes/ecryptfs_4.7_kocl/crypto.c:465-545 | the batch leaves the lower file as encrypting each page in turn does |
| LowerFile.LowerInode.DecryptPages | gaes/ecryptfs_4.7_kocl/crypto.c:621-676 | each page holds the decryption of its lower page |
| LowerFile.LowerInode.Refetch | gaes/ecryptfs_4.7_kocl/crypto.c:465-676 | a batch encrypted and then decrypted brings every page's last octets back |
| FileLayout.WriteIsSplice | gaes/ecryptfs_4.7_kocl/read_write.c:106-219 | ecryptfs_write replaces its range in every file exactly when it ends at a page end or at or behind the file's end, or begins within the page it ends in |
| FileLayout.WriteLosesRest | gaes/ecryptfs_4.7_kocl/read_write.c:166-172 | one octet at the start of a page loses the rest of that page |
| FileLayout.GrowIsZeros | gaes/ecryptfs_4.7_kocl/inode.c:738-750 | one zero at the last position makes the file the old one followed by zeros |
| FileLayout.ShrinkKeeps | gaes/ecryptfs_4.7_kocl/inode.c:751-785 | zeros to the end of the page keep what is before them and clear the rest of the page |
| FileLayout.RoundFills | gaes/ecryptfs_4.7_kocl/read_write.c:126-203 | a round of the write advances it and leaves all other pages alone |
| Arithmetic.LowBits | gaes/ecryptfs_4.7_kocl/inode.c:695-696 | the bits outside the mask are the remainder by 2 to the shift |
| FileLayout.PageShift | gaes/ecryptfs_4.7_kocl/inode.c:686-701 | with the extents of the code, one page, the lower size is the header and the pages that hold the file |
| FileLayout.LowerSizeExact | gaes/ecryptfs_4.7_kocl/inode.c:686-701 | mask and shift of an extent size give header and whole extents for every upper size exactly when it is a power of two |
| FileLayout.LowerSizeNotCeil | gaes/ecryptfs_4.7_kocl/inode.c:686-701 | with any other extent size, which the code never sets, it would be too long already for one extent |
| Truncate.SetExtentMaskAndShift | gaes/ecryptfs_4.7_kocl/crypto.c:785-799 | the shift counts the twos of the extent size and the 32-bit mask leaves that many bits out |
| Truncate.PlainAfterWrite | gaes/ecryptfs_4.7_kocl/crypto.c:563-614 | encrypting a page to the lower file puts that page into the decrypted file |
| Truncate.EcryptfsInode.GetLockedPage | gaes/ecryptfs_4.7_kocl/read_write.c:150-153 | a page is what the lower file decrypts to, or anything when it is not there yet |
| Truncate.EcryptfsInode.WriteRound | gaes/ecryptfs_4.7_kocl/read_write.c:126-203 | one round through cache and cipher advances the write on the lower file |
| Truncate.EcryptfsInode.EcryptfsWrite | gaes/ecryptfs_4.7_kocl/read_write.c:106-219 | the decrypted file becomes Written of the old one, both sizes agree and the lower file has whole pages |
| Truncate.EcryptfsInode.EcryptfsTruncate | gaes/ecryptfs_4.7_kocl/inode.c:719-856 | the file becomes its first n octets or is followed by zeros, the lower length is the one that belongs to n, and after shrinking nothing is left behind the end |
| MsgCtx.FreeListIsFree | gaes/ecryptfs_4.7_kocl/messaging.c:84-103 | in every reachable state a context is on the free list exactly when it is FREE, on the other exactly when not, and on none twice |
| MsgCtx.TakenByPendingExchange | gaes/ecryptfs_4.7_kocl/messaging.c:220-264 | a reply is taken exactly when its slot is pending and its number is the exchange's modulo 2^32 |
| MsgCtx.StaleReplyRefused | gaes/ecryptfs_4.7_kocl/messaging.c:220-264 | with at most 2^32 exchanges a reply to an exchange that is over is refused at every slot for good |
| MsgCtx.StaleRepliesExactly | gaes/ecryptfs_4.7_kocl/messaging.c:84-89 | every stale reply is refused in every run of at most N exchanges exactly when N is at most 2^32; the run of 2^32 + 1 in which one is taken is given |
| MsgCtx.TakenOnce | gaes/ecryptfs_4.7_kocl/messaging.c:220-264 | no exchange takes two replies |
| MsgCtx.WaiterGetsItsOwn | gaes/ecryptfs_4.7_kocl/messaging.c:341-366 | a waiter leaves with the reply taken for its own exchange, or without one if none was |
| MsgCtx.WaiterLeaves | gaes/ecryptfs_4.7_kocl/messaging.c:341-366 | with a reply or out of time the waiter leaves: its slot is back on the free list without a message and its exchange over; else nothing changes, and no other slot ever does |
| MsgCtx.SendTakesFree | gaes/ecryptfs_4.7_kocl/messaging.c:51-89 | sending succeeds exactly when some free slot is not locked; the first such slot becomes pending with the next number, and no other changes |
| MsgCtx.ReplyReachesWaiter | gaes/ecryptfs_4.7_kocl/messaging.c:220-366 | a reply that is taken is what the waiter gets in its next turn, in time or not, whatever happens in between |
| MsgCtx.DeliveredOnce | gaes/ecryptfs_4.7_kocl/messaging.c:220-366 | in every reachable state each reply taken has been delivered once or waits in a slot, and nothing else has been delivered |
| MsgCtxTable.Messaging.constructor | gaes/ecryptfs_4.7_kocl/messaging.c:405-420 | all contexts are free and on the free list in order |
| MsgCtxTable.Messaging.AcquireFreeMsgCtx | gaes/ecryptfs_4.7_kocl/messaging.c:51-76 | the first free context that is not locked, or the error |
| MsgCtxTable.Messaging.FreeToAlloc | gaes/ecryptfs_4.7_kocl/messaging.c:84-89 | the context moves, is pending and takes the next counter modulo 2^32 |
| MsgCtxTable.Messaging.AllocToFree | gaes/ecryptfs_4.7_kocl/messaging.c:97-103 | the context moves back, without a message |
| MsgCtxTable.Messaging.SendMessage | gaes/ecryptfs_4.7_kocl/messaging.c:277-306 | takes a step of the transition system, or reports that no context is free |
| MsgCtxTable.Messaging.ProcessResponse | gaes/ecryptfs_4.7_kocl/messaging.c:220-264 | takes the reply or refuses it, as the transition system does |
| MsgCtxTable.Messaging.WaitForResponse | gaes/ecryptfs_4.7_kocl/messaging.c:341-366 | a waiter's turn, as in the transition system |

## Left out

- Helper.KoclHelper.MainLoop: the helper's items are values in its lists, not structs reached through two lists; the links themselves, and a traversal under which nodes move, are the subject of IntrusiveList.ProcessRequest.
- Tag70Packet.FindSeparator: tests the bound before it reads; the code reads one octet behind the decrypted name when that has no zero (gaes/ecryptfs_4.7_kocl/keystore.c:1073-1075).
- Filename.FilenameRoundTrip: asks for a signature in lower-case hexadecimal, the form the parser looks keys up under.
- KeyPacketSet.ParsePackets: stops with an error where the code would read behind the octets it was given; malformed sets can get there because the bound of a tag 3 packet is reused for the tag 11 packet behind it.
- KeyPacketSet.WriteTag3Packet: begins where the key record holds the encrypted key; wrapping the session key and asking the daemon for it are not modelled.
- AuthTokSearch.EcryptfsParsePacketSet: key lookups and decryptions are fixed inputs, as is the result of deriving the IV.
- Truncate.EcryptfsInode.EcryptfsTruncate: encrypted files with extents of one page; no I/O errors, signals or size checks of the lower file system.
- MsgCtxTable.Messaging.SendMessage: handing the message to the character device is not modelled; an exchange whose message could not be sent stays pending.
- `ecryptfs_write2` and `ecryptfs_read2`: the page array is sized from the length alone while the loop starts at the position, and reading gathers pages from index 0; no clean general contract holds.
- `gaes/ecryptfs_4.7_orig` and `gaes/ecryptfs_4.7_kocl/crypto_blk.c`: they repeat the modelled functions.
- OpenCL calls, device discovery, pinned memory and the loading of services: foreign calls.
- Page pinning, ioctl, poll and open, logging, module start and stop: I/O.
- Interrupted waits in `kocl_offload_sync`, allocation failures, stopping the device and the daemon's teardown: the code does not complete outstanding work there.
- AES, MD5 and IV derivation: uninterpreted, and without effect on what is proved under ECB.
- The VFS glue, mount options and the character device's queue: thin wrappers around kernel objects.
- The header's marker, flags and version: a fixed layout without interaction with the rest.
