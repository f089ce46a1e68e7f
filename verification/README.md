# Kernel Paxos persistence: the pipeline between kernel and store

A kernel module hands records and lookup requests to a user-space daemon through two rings of
fixed-size slots. The daemon puts records into an LMDB database keyed by `iid`, looks requests up in it,
and sends the answers back into the slots, where a pool of kernel workers inspects them. This
project models that pipeline and proves what every run of it keeps.

Check it with `dafny verify --resource-limit 2000000 --verification-time-limit 0 dfyconfig.toml`.

## How it is built

- `Bytes`, `Codec`: integers, the 40-byte header, records and frames as bytes.
- `Rings`: a device as a value (`Rings`), what the operations of the two devices do to it
  (`WritePersistence`, `ReadPersistence`), and the rings as queues. `BUFFER_SIZE` is the number of slots, any
  positive number a C `int` can index; the code uses 1000.
- `Drift`: the write ring when copies to the user fail.
- `Store`, `WorkQueues`: the database and the worker pool as values.
- `PaxosTypes`, `KernelDevice`, `DeviceOperations`, `LmdbOperations`, `Daemon`, `WorkersPool`, `TestDevice`: the code in its
  own form, objects updated in place. A `PaxosKernelDevice` carries its value in the ghost field `model`, which `Valid()`
  ties to the real fields slot by slot; each method says which function of `Rings` takes the old value to the new one.
- `System`: the pipeline as a transition system over those same functions. One event is one device call, one
  database transaction or one worker callback. A step is defined only where all its accesses are in bounds, those to the
  daemon's receive buffer included; otherwise anything may follow. A put that fails in an open transaction aborts
  the daemon, whose two devices are then released; the execution goes on from there.
- `Invariants`: what every step keeps.
- `Executions`: when a step is undefined, and when an assertion fails.
- `WriteTheorems`, `LookupTheorems`, `SlotTheorems`, `Accounts`, `WorkerTheorems`, `EndToEnd`: what holds of every run. Queues,
  answers, counters and jobs are all read off the run's events there.
- `Witnesses`: executions that show what the code does not promise.

An execution is a sequence of states and histories `cs` with the events `es` between them (`System.IsExecution`). The
history is a record of the execution read off its events; no decision depends on it. A run is an execution in which
no step overruns the receive buffer (`System.IsRun`), so every execution is a run up to its first overrun.

## What was found

- Where the code promises less than its names suggest, the exact condition is proved.
  `storage_put` aborts the process if and only if `mdb_put` fails in an open transaction: it then aborts the
  transaction and goes on to commit it, and the commit asserts a live one (`Daemon.StoragePut`). The indices of the write ring
  agree if and only if the number of failed reads since the last release is a multiple of the ring's size
  (`Drift.DriftIsExact`); one failed read breaks them on every ring of more than one slot.
- The daemon's receive buffer has 240 bytes, and a frame takes 44 and its value. A step of an execution is undefined, for
  the first time, if and only if it reads a frame whose value is longer than 196 bytes (`Executions.DefinedUnlessOverrun`);
  a client's record of 237 bytes is enough (`Witnesses.OneByteTooLong`), and records of at most 236
  bytes never are (`Executions.ShortMessagesNeverOverrun`).
- `clearPaxosAccepted` leaves `aid` and `value_ballot` alone. Neither is looked at by a worker, and every
  reply that gets past its header overwrites them.
- A worker never waits: `callback->response` is not null from initialisation on. It judges whatever its slot
  shows when it runs, which may be the answer to an older request for the same `iid`. And a worker of
  another lookup may mark a reused slot done first, so that an answered lookup goes uncounted
  (`Witnesses.MissedThoughAnswered`). `WorkerTheorems.VerdictOfLastReply` says exactly when a worker counts its own lookup.
- Closing the read device leaves the responses alone; a worker that runs afterwards still counts what the last reply
  left (`Witnesses.CountedAfterClose`).
- A reply whose value cannot be copied leaves a header with a positive length over 200 zero bytes, and workers count it
  (`Witnesses.CountedWithoutValue`). Everything else a counted response shows was stored (`WorkerTheorems.FoundIsSound`).

## Assumptions

- Device calls, transactions and worker callbacks are atomic with respect to each other.
- Each persistence device has one opener, which reads only when `poll` reports input and replies at most once to
  each message; both daemon threads open the same database, and their handle has no transaction at the start.
- A failed copy from or to the user copies nothing. In the transition system the copies to the user succeed;
  `Drift` treats the write ring when they do not.
- Clients send at least a header, and lookups that fit a slot and announce a length from 0 to 200.
- Allocations succeed, except that of a worker's job.
- After an abort the daemon may be started again at any time; both rings are empty then.

## Model

| member | source | states |
|---|---|---|
| `Codec.DecodeEncode` | kpaxos/lmdb_operations.c:12-38 | Decoding a record's encoding, wherever it stands and whatever follows, gives back every field, the value and the junk, whatever the padding and pointer bytes are |
| `Bytes.LittleEndian` | paxos/include/paxos_types.h:71-80 | Words lie in memory with the least significant byte first, negative lengths in two's complement |
| `Codec.HeaderLayout` | paxos/include/paxos_types.h:71-80 | The header takes 40 bytes, its fields at offsets 0, 4, 8, 12, 16 and 24 |
| `Codec.EncodeDecode` | kpaxos/lmdb_operations.c:12-38 | Encoding a decoded record with the junk it came with gives back the same bytes |
| `Codec.EncodeInjective` | kpaxos/lmdb_operations.c:26-38 | No two records share an encoding |
| `Codec.FrameParses` | kpaxos/lmdb_operations.c:40-56 | From a frame the kernel reads back exactly the buffer id and the record put into it |
| `Codec.FrameLayout` | kpaxos/lmdb_operations.c:40-56 | A frame is the id, the 40 bytes of the header at 4 and the value at 44, without gaps |
| `WritePersistence.SlotHolds` | kpaxos/write_persistence_device_operations.c:85-97 | The slot an added message leaves decodes to the record the message stands for (`CutTo200` says which that is) |
| `WritePersistence.CutTo200` | kpaxos/write_persistence_device_operations.c:85-97 | Of a message the slot keeps the header, with the length corrected, and of its value exactly the first 200 bytes, or all if there are fewer |
| `WritePersistence.SlotBytes` | kpaxos/write_persistence_device_operations.c:85-97 | Byte by byte what a message of any size, even less than a header, leaves in its slot of 240 |
| `WritePersistence.ReadTouches` | kpaxos/write_persistence_device_operations.c:30-46 | A read changes no slot; on a device that has stopped it changes nothing, and if a copy fails only the count |
| `Rings.EnqueueTouches` | kpaxos/read_persistence_device_operations.c:126-138 | Adding a message touches only its own slot, whose callback gets its index and the message's `iid` and is not done, while its response stays |
| `WritePersistence.AddToQueue` | kpaxos/write_persistence_device_operations.c:77-108 | An accepted message is appended to the queue of records; it is dropped, and nothing changes, exactly when the ring is full |
| `WritePersistence.TakeFromQueue` | kpaxos/write_persistence_device_operations.c:25-49 | A read whose copies succeed takes exactly the oldest record out of the queue |
| `WritePersistence.HeadFrameDecodes` | kpaxos/write_persistence_device_operations.c:33-36 | The bytes a read copies parse to the head's slot and exactly the record the slot holds, whatever follows them |
| `ReadPersistence.AddToQueue` | kpaxos/read_persistence_device_operations.c:118-142 | An accepted request is appended with its callback's `iid` and buffer id in place, leaving those already queued alone; it is dropped exactly when the ring is full |
| `ReadPersistence.SlotBytes` | kpaxos/read_persistence_device_operations.c:127-128 | Byte by byte what a request leaves in its slot: itself, zeros to the end of the header, and what was there before |
| `ReadPersistence.PeekQueue` | kpaxos/read_persistence_device_operations.c:26-50 | The bytes a read copies parse to the head's slot and the head's `iid` |
| `ReadPersistence.DeliverHead` | kpaxos/read_persistence_device_operations.c:66-92 | A reply addressed to the head that gets past its header removes exactly the head and adds its answer; the other requests and all answers of the last lap stay in their slots |
| `ReadPersistence.FailHead` | kpaxos/read_persistence_device_operations.c:60-76 | A reply that fails before that leaves indices and requests alone; with its id copied it leaves the head's response such that no worker can count it |
| `ReadPersistence.ReplyTouches` | kpaxos/read_persistence_device_operations.c:54-92 | A reply changes the response of the slot it names and nothing else of any slot; on a device that has stopped, or without its id, it changes nothing |
| `ReadPersistence.ReplyShows` | kpaxos/read_persistence_device_operations.c:66-80 | That response is then the record of the frame, its value from the first byte on and zeros behind it; zeros only if the value was not copied; and blank if the header was not |
| `ReadPersistence.FrameIsReply` | kpaxos/read_persistence_device_operations.c:60-80 | A frame made from a record that fits stays inside the 200-byte response buffer and is parsed to that record |
| `Drift.DriftIsExact` | kpaxos/write_persistence_device_operations.c:39-47 | In every run, failed copies included, 0 <= used <= N and (first + used + f) mod N = current, where f counts the failed reads since the last release; so the indices agree if and only if N divides f |
| `Drift.FailedReadMisaligns` | kpaxos/write_persistence_device_operations.c:39-47 | One failed read breaks the relation of the indices on every aligned ring of more than one slot |
| `Store.LastWriterWins` | kpaxos/lmdb_operations.c:221-238 | After any sequence of writes a reader finds for a key the last record written for it, else what was there before |
| `Store.PutKeepsWellFormed` | kpaxos/lmdb_operations.c:221-265 | A put of a record with at most 200 bytes of value leaves every entry well-formed: it has its key in its header and the length it announces |
| `Store.AnswerFits` | kpaxos/user_storage.c:111-131 | From a well-formed store every answer has at most 200 bytes of value, and the asked `iid` or 0 |
| `Store.AnswerIs` | kpaxos/user_storage.c:69-131 | The answer is the stored record whenever begin and lookup succeed, whatever the commit returns, and otherwise 0 in all header fields and without a value |
| `Store.PutIsApply` | kpaxos/lmdb_operations.c:221-238 | Putting a record's encoding adds that record to the decoded store as its last write |
| `Store.AllKept` | kpaxos/user_storage.c:88-105 | If all puts succeed, the records kept are those put |
| `Store.PutsAreApply` | kpaxos/user_storage.c:88-105 | A put with any return codes adds its record to the decoded store as the last write if it succeeds, and changes nothing otherwise |
| `WorkQueues.AddWorkIsFair` | kpaxos/workers_pool.c:129-139 | A dispatch keeps every worker's jobs, run and waiting, equal to its share of all jobs in submission order |
| `WorkQueues.TakeWorkIsFair` | kpaxos/workers_pool.c:70-89 | So does running a job |
| `WorkQueues.ShareLength` | kpaxos/workers_pool.c:129-139 | Of k jobs worker i of n gets (k - i + n - 1) / n |
| `WorkQueues.SharesAreEven` | kpaxos/workers_pool.c:129-139 | Two workers' shares differ by at most one, the earlier worker having the larger |
| `WorkQueues.JobIsInItsShare` | kpaxos/workers_pool.c:129-139 | Job j is job j / n of worker j mod n: the shares, interleaved, are the submission sequence |
| `KernelDevice.ClearPaxosAccepted` | paxos/paxos.c:48-55 | Clears the `iid`, promise, ballot, length and each of the 200 value bytes in place; `aid`, `value_ballot` and the pointer stay |
| `KernelDevice.PaxosKernelDevice.KdevcharInit` | kpaxos/kernel_device.c:92-135 | The new device is an empty ring of 240-byte slots, every callback not done and every response blank in `iid`, promise, ballot, length and all 200 value bytes, wired so that no object belongs to two slots |
| `KernelDevice.SlotsStaySeparate` | kpaxos/kernel_device.c:114-127 | In every valid device, which every method leaves behind, the buffers, callbacks, responses and value buffers reached through the pointers of two slots are pairwise distinct |
| `DeviceOperations.ReadPersistenceAddMessage` | kpaxos/read_persistence_device_operations.c:118-142 | Takes the device to the specified one in place; the callback returned is the slot's, or null exactly if the ring was full |
| `DeviceOperations.WritePersistenceAddMessage` | kpaxos/write_persistence_device_operations.c:77-108 | As for the read device, for messages of any size; spelled out, the slot then has the message's header with the length set to the smaller of its value's and 200, and that many bytes of the value |
| `DeviceOperations.WritePersistenceRead` | kpaxos/write_persistence_device_operations.c:25-49 | The user buffer gets exactly the head's frame and keeps its tail; the number returned leaves out the id; a failed copy lowers `used_buf` alone |
| `DeviceOperations.ReadPersistenceRead` | kpaxos/read_persistence_device_operations.c:26-50 | The user buffer gets exactly the head's frame, the number returned includes the id, and the device is unchanged |
| `DeviceOperations.ReadPersistenceWrite` | kpaxos/read_persistence_device_operations.c:52-99 | On each path of the three copies the device becomes the specified one, with every value pointer back in place although the header's bytes overwrote it; spelled out, the response is the record, its value from the first byte on and zeros behind it, or zeros only if the value was not copied, or blank if the header was not; success is reported exactly if everything there was to copy arrived |
| `LmdbOperations.BufferToPaxosAccepted` | kpaxos/lmdb_operations.c:12-24 | The struct ends up holding the decoded record, its pointer leading to a new buffer, or null if the length is not positive |
| `LmdbOperations.PaxosAcceptedToBuffer` | kpaxos/lmdb_operations.c:26-38 | The new buffer is the record's encoding |
| `LmdbOperations.ClientValueToBuffer` | kpaxos/lmdb_operations.c:40-56 | The new buffer begins with the frame and is 12 bytes longer |
| `LmdbOperations.TxBegin` | kpaxos/lmdb_operations.c:195-200 | Opens a transaction on the current store if the call succeeds, and asserts that none is open |
| `LmdbOperations.TxCommit` | kpaxos/lmdb_operations.c:202-210 | Publishes the pending store exactly if the call succeeds, closes the transaction either way, and asserts that there is one |
| `LmdbOperations.TxAbort` | kpaxos/lmdb_operations.c:212-219 | Closes the transaction, if any, and leaves the store alone |
| `LmdbOperations.Put` | kpaxos/lmdb_operations.c:221-238 | The pending store gets the record's encoding under its `iid`, if the call succeeds |
| `LmdbOperations.Get` | kpaxos/lmdb_operations.c:240-265 | The struct gets the decoded entry, or is untouched if there is none; the assertion fails exactly if the entry has another `iid` |
| `Daemon.StoragePut` | kpaxos/user_storage.c:88-105 | No path leaves a transaction open; the process is aborted if and only if the put fails in an open transaction; otherwise only the record's key changes, and it does exactly if all three calls succeed |
| `Daemon.StorageGet` | kpaxos/user_storage.c:69-86 | No path that returns leaves a transaction open, none changes the store; null is returned exactly if begin or lookup fail or the record is missing; the assertion fails only on an entry that is not well-formed |
| `Daemon.ProcessReadMessage` | kpaxos/user_storage.c:111-136 | The device receives, under the same buffer id, the store's record for the `iid`, whatever the commit returned; if there is none or begin or lookup fail, all six header fields and all 200 value bytes of the response are 0 |
| `Daemon.ServeWrite` | kpaxos/user_storage.c:167-193 | One round of the write thread moves exactly the oldest record from the ring to the store, or out of the ring alone if its put fails; it reports the abort exactly if the put fails in an open transaction |
| `Daemon.AnswerHead` | kpaxos/user_storage.c:167-193 | One round of the read thread answers exactly the head of the ring by what the store holds for it, or by the zero record if the database calls fail |
| `Daemon.DrainWrites` | kpaxos/user_storage.c:165-197 | Without new messages the loop ends after exactly `used_buf` rounds with the ring empty, or in the first round whose put aborts the process; for any return codes of the puts and any receive buffer that has room for the frames |
| `Daemon.WriteThread` | kpaxos/user_storage.c:138-210 | With the 240 bytes the code allocates: the store is then the old one with those of the ring's records applied in order whose puts succeeded, the last for each key winning |
| `Daemon.DrainLookups` | kpaxos/user_storage.c:165-197 | Without new messages and failed replies the loop ends after exactly `used_buf` rounds; each request's slot then shows what the unchanged store holds for it, or the zero record if its database calls failed |
| `WorkersPool.WorkersPool.CreatePool` | kpaxos/workers_pool.c:21-68 | A new pool is a fair one to which nothing was submitted |
| `WorkersPool.AddWork` | kpaxos/workers_pool.c:129-139 | The job joins the queue of the worker whose turn it is; the turn passes on; a missing pool loses the job |
| `TestDevice.ReadTestDevice.ReadTestWrite` | kpaxos/read_test_device_operations.c:70-95 | A job for the slot's callback with the `iid` just stored is submitted, and counted as received, exactly if the device works, the ring had room and the job could be allocated; the length is returned even for a dropped message |
| `TestDevice.ReadTestDevice.WaitResponse` | kpaxos/read_test_device_operations.c:37-68 | The message is counted exactly if the callback was not done and its response has the job's `iid` and a positive length; the callback is done afterwards in any case |
| `Invariants.InvAlong` | kpaxos/user_storage.c:138-210 | Every state of every run satisfies the invariants of both rings, the store, the workers and the accounts |
| `Executions.DefinedUnlessOverrun` | kpaxos/user_storage.c:155-190 | Up to the first overrun, whatever fails, every step is in bounds if and only if the frame it reads, if any, has a value of at most 196 bytes and so fits the receive buffer; an assertion fails if and only if a put fails in an open transaction, so `assert(iid == out->iid)` never does |
| `Executions.ShortMessagesNeverOverrun` | kpaxos/user_storage.c:155 | If clients send no record of more than 236 bytes and no request that announces more than 196, no execution ever overruns the buffer |
| `Executions.FirstWriteOverruns` | kpaxos/user_storage.c:155-175 | The bound is exact: from every initial state, reading the first record sent is defined if and only if it has at most 236 bytes |
| `Executions.FirstLookupOverruns` | kpaxos/user_storage.c:155-175 | Likewise for the first request, if and only if it announces at most 196 bytes |
| `Witnesses.OneByteTooLong` | kpaxos/user_storage.c:155-170 | An execution in which a record of 237 bytes overruns the receive buffer |
| `Invariants.StoredLookupKeeps` | kpaxos/read_persistence_device_operations.c:126-134 | A request's slot asks for the message's `iid` and decodes like the message, although the slot's tail is not cleared |
| `WriteTheorems.WritesAreALog` | kpaxos/user_storage.c:88-109 | In every state, whatever failed before, the committed records are those committed when the write device was last closed, then exactly those put since whose puts succeeded, in the order they were accepted, all read off the run's events; and the decoded store is the fold of the committed ones over the initial store |
| `WriteTheorems.WritesAreInOrder` | kpaxos/write_persistence_device_operations.c:25-108 | In every state the writes accepted since the device was last closed, read off the run's events, are those put, the one in flight and the decoded contents of the ring, in this order |
| `WriteTheorems.WriteRingStep` | kpaxos/write_persistence_device_operations.c:25-108 | Step by step the decoded ring is a bounded queue: appended to, or left alone exactly when full; the daemon is handed the oldest record; a release or the daemon's death empties it; nothing else touches it |
| `WriteTheorems.NoWriteIsLost` | kpaxos/user_storage.c:88-109 | While the puts since the write device was last closed succeed, the messages accepted since, read off the run's events, are those committed, in flight and in the ring, in order: none lost, duplicated or reordered |
| `LookupTheorems.LookupsAreAQueue` | kpaxos/read_persistence_device_operations.c:118-142 | In every state 0 <= used <= N, (first + used) mod N = current, and the ring holds exactly the unanswered requests in order |
| `LookupTheorems.LookupRingStep` | kpaxos/read_persistence_device_operations.c:26-142 | Step by step: a request is appended, or dropped exactly when the ring is full; reads only peek; a reply past its id and header removes exactly the head; a release or the daemon's death empties; nothing else touches it |
| `LookupTheorems.LiveSlotIsUndisturbed` | kpaxos/read_persistence_device_operations.c:127-138 | From its add to its removal a request's bytes, callback `iid` and buffer id stay the same whatever else runs, and the `iid` is that in the bytes |
| `LookupTheorems.LookupsAreLinearizable` | kpaxos/user_storage.c:111-131 | The answer to the i-th request is the record the store held for its `iid`, or the zero record, at a moment when that request was the head of the ring |
| `LookupTheorems.RequestsAreEvents` | kpaxos/read_persistence_device_operations.c:118-138 | The i-th request of the history asks for the `iid` of the i-th lookup accepted since the last close, read off the run's events |
| `LookupTheorems.AnswersAreEvents` | kpaxos/read_persistence_device_operations.c:60-83 | The i-th answer of the history is the record in the i-th reply since the last close that got past its id and header |
| `LookupTheorems.ReplyMatchesHead` | kpaxos/read_persistence_device_operations.c:60-83 | Every reply carries the index of the head on arrival: the k-th since the release goes to slot k mod N with the lookup of the k-th request's `iid` |
| `LookupTheorems.FailedReplyIsRetried` | kpaxos/read_persistence_device_operations.c:60-76 | After a reply whose id or header copy fails the same frame is served next, and a response that was touched cannot be counted |
| `WorkerTheorems.FoundIsSound` | kpaxos/read_test_device_operations.c:55-66 | A worker counts a message for an `iid` only if the last reply that named its slot brought a record with that `iid` and a non-empty value that was in the store initially or has been committed; the slot shows it whole, but for the value if that could not be copied; whichever slots were reused under pending workers |
| `SlotTheorems.SlotStep` | kpaxos/read_persistence_device_operations.c:52-142 | The whole effect of any step on a slot: its response changes only in a reply that names it, its bytes, `iid` and buffer id only when a lookup enters it, its mark only then and when a worker inspects it; a close and the daemon's death change none of them |
| `SlotTheorems.SlotShowsLastReply` | kpaxos/read_persistence_device_operations.c:66-116 | Through any number of closes and reuses a slot shows exactly what the last reply that named it brought |
| `Accounts.WorkStemsFromLookup` | kpaxos/read_test_device_operations.c:75-91 | Every job a worker runs, however long it waited and whatever became of its slot, stems from an earlier lookup of that very `iid` that was accepted into that very slot |
| `WorkerTheorems.VerdictIsExact` | kpaxos/read_test_device_operations.c:55-58 | While an answer is in its slot, a worker asking for an `iid` counts it if and only if no worker has marked the slot done, the answer has a value and is for that `iid` |
| `SlotTheorems.DoneMeansInspected` | kpaxos/read_test_device_operations.c:66 | Once a lookup has entered a slot, the slot is marked done if and only if a worker inspected it since the last lookup entered it; that may be the worker of another lookup |
| `WorkerTheorems.OwnVerdict` | kpaxos/read_test_device_operations.c:37-68 | The worker that runs the job of a given lookup, while an answer is in its slot, counts it if and only if that answer has a value and is for the same `iid`, and no worker has inspected the slot since a lookup last entered it |
| `WorkerTheorems.VerdictOfLastReply` | kpaxos/read_test_device_operations.c:37-68 | In every case and through any closes: the worker of a given lookup counts it if and only if the last reply that named its slot brought a record with a value and the same `iid`, and no worker has inspected the slot since a lookup last entered it |
| `Witnesses.MissedThoughAnswered` | kpaxos/read_test_device_operations.c:55-66 | A run of ten steps in which two lookups of a stored record are both answered with it and either worker would count its own, yet the one that comes first makes the other miss it |
| `Witnesses.CountedWithoutValue` | kpaxos/read_persistence_device_operations.c:78-87 | A run of five steps in which the copy of a reply's value fails and the worker counts the message, although the slot shows 200 zero bytes |
| `Witnesses.CountedAfterClose` | kpaxos/read_persistence_device_operations.c:109-116 | A run of six steps in which the device is closed after the reply and the worker still counts the message |
| `EndToEnd.ReadYourWrites` | kpaxos/user_storage.c:69-136 | An answer whose lookup was begun and found is the last record for its `iid` committed before it was fetched, and its slot shows it, header, value from the first byte on and zeros, until it is served again; if all accepted writes had been put, that is the last accepted one whose put succeeded |
| `EndToEnd.WriteThenRead` | kpaxos/read_persistence_device_operations.c:66-80 | End to end: right after a reply the slot has the header, the value from the first byte on and zeros of the last accepted write for the requested `iid` cut to 200 bytes, or of what was stored before, or only zeros; provided the ring was drained when it was fetched and no put has failed since the write device was last closed |
| `EndToEnd.ReplyShowsStore` | kpaxos/user_storage.c:111-131 | A reply leaves in the head's slot what the store held for the head's `iid` when it was fetched, or zeros in all six header fields and all 200 value bytes if it held nothing or the lookup failed |
| `Accounts.CountersAddUp` | kpaxos/read_test_device_operations.c:55-92 | Found, missed and pending jobs are the received ones and those pending at the last open, so a session opened with none pending never reports more found than received |
| `Accounts.CountersAreEvents` | kpaxos/read_test_device_operations.c:24-92 | In every state the two counters are the numbers, since the test device was last opened, of jobs run that met the source's test and of lookups that were accepted and got a job |
| `Accounts.LookupsAreConserved` | kpaxos/read_persistence_device_operations.c:82-124 | Lookups offered are those dropped, answered, discarded by a close and in the ring, each counted off the events |
| `Accounts.DropsOnlyWhenFull` | kpaxos/read_persistence_device_operations.c:118-124 | A lookup leaves the state unchanged if and only if N are unanswered |
| `Accounts.JobsGoRoundRobin` | kpaxos/workers_pool.c:129-139 | In every state job j of the run, the slot and `iid` of the j-th accepted lookup with a job, is job j / n of worker j mod n, run already or still waiting |
| `Accounts.LoadsAreEven` | kpaxos/workers_pool.c:129-139 | After k jobs worker i of n was given (k - i + n - 1) / n of them |

## Left out

- Device registration, locks, wait queues, `printk`, module loading: kernel plumbing with no effect on the protocol.
- `kdevchar_exit` and `free_pool`: teardown; the `working` flag they clear is modelled, their frees are not.
- LMDB itself, its environment and directories, and `lmdb_compare_iid`: the database is a map, its calls return any code.
- `user_chardev.c`, `testekerneldevice.c`, argument parsing, signals: drivers without protocol content.
- `write_test_device_operations.c`: `write_test_write` is the event `ClientWrite`, nothing more.
- Interleavings inside one device call, and lost updates of the two message counters, which are unbounded here.
- Failed copies to the user on the read ring: the daemon then works on stale bytes; `read_persistence_read` itself is
  modelled with them, the runs are not.
- Liveness: that a worker finds its own answer depends on when it runs; only what it may count is proved.
- Daemon.DrainWrites: one emptying of the ring; the loop's end is an empty ring instead of the stop flag, and nothing is
  added while it runs. Both are covered step by step in the runs.
- Daemon.WriteThread: as for `Daemon.DrainWrites`, and only for records whose frames fit the receive buffer; what happens
  beyond it is undefined, and `Executions.DefinedUnlessOverrun` says when that is.
- Daemon.DrainLookups: one emptying of the ring, whose replies all arrive; failed replies are in
  `LookupTheorems.FailedReplyIsRetried`.
