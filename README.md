# KStor core, modelled in Dafny

KStor is a block-storage service: a Linux kernel module serves chunks of a mounted volume, and a
Go client talks to it over TCP with a small binary protocol. This project models five parts of it
and proves properties about them.

- **The Go chunk-protocol client** (`client.dfy`, `wire_codec.dfy`).
  - The wire format is a 16-byte header of four little-endian `uint32` fields (Magic, Type,
    DataSize, Result) followed by DataSize body bytes.
  - The records are fixed-size: the 131072-byte ping buffer, 16-byte chunk ids and 65536-byte
    chunks.
  - The codec is pure functions over `seq<Byte>`. It proves the header round trip, the frame
    layout and that a receiver reads back the framed packet.
  - The `Client` class holds the connection as two byte sequences: what was sent, and what the
    server will still deliver. `SendPacket`, `RecvPacket`, `RecvResponse`, `SendRecv`, `Ping` and
    the `Chunk*` calls update them, and each is proved against the codec's functions.
- **The separate-chaining hash table** (`hash_table.dfy`).
  - It is a class over a fixed array of buckets, each bucket a `seq` of entries.
  - A ghost `Contents` map and a `Valid()` invariant state three things: every entry sits in its
    home bucket, no key appears twice, and the buckets hold exactly `Contents`.
- **The range and array helpers of the kernel core library** (`memory.dfy`): `CheckRange`,
  `CheckIntersection`, `Min`, `Max`, `ArrayEqual`, `StrLen` and `Swap`.
- **The journal's bookkeeping** (`journal.dfy`, error codes in `kerror.dfy`).
  - The header checks of `Load` and `Format`.
  - The ring allocator `GetNextBlockIndex` and the block-index bounds checks.
  - The splitting of a page write into data blocks.
  - The transaction state machine.
  - The order in which `WriteTx` queues the Begin, data and Commit blocks. That order is
    specified by the function `WriteBlocks`, and lemmas place each block at the allocator's
    successive ring slots, which are all different.
- **The control device** (`control_device.dfy`).
  - The single volume slot that `Mount` and both `Unmount`s fill and empty.
  - The NotFound guard of the chunk operations.
  - The ioctl dispatcher with its terminator checks and copy-back rule.
  - The device singleton's `Create` and `Delete`.

Outside effects become parameters of the operations that meet them:
- the bytes a connection write transfers;
- the result of dialing;
- the header or block read from disk, and the result of a disk write;
- the outcomes of the volume layer and of the copies to and from user memory;
- the clock, the random generator and the transaction id.

XXHash is an uninterpreted function field of the journal. The `api.h` constants (journal magic,
data-block capacity) are constructor parameters of the journal, since that header is not part of
this model.

## Model

| member | source | states |
|---|---|---|
| Types.Zeros | golang/client.go:219 | a fresh buffer of n bytes, all zero |
| WireCodec.EncodeU32 | golang/client.go:31-36 | a uint32 field occupies four bytes on the wire |
| WireCodec.DecodeU32 | golang/client.go:206 | reads a uint32 little-endian; by U32RoundTrip and U32Canonical it is the exact inverse of EncodeU32 on every value and every four bytes |
| WireCodec.U32RoundTrip | golang/client.go:179-209 | decoding the four little-endian bytes of x gives x |
| WireCodec.U32Canonical | golang/client.go:203-209 | every four bytes are the encoding of the value they decode to |
| WireCodec.EncodeHeader | golang/client.go:31-36 | a header is exactly 16 bytes |
| WireCodec.DecodeHeader | golang/client.go:206 | reads the four fields from offsets 0, 4, 8 and 12; by HeaderRoundTrip and HeaderCanonical it is the exact inverse of EncodeHeader on every header and every 16 bytes |
| WireCodec.HeaderRoundTrip | golang/client.go:179-209 | decoding the 16 bytes written for a header yields the same Magic, Type, DataSize and Result |
| WireCodec.HeaderCanonical | golang/client.go:206 | every 16-byte string is the encoding of the header it decodes to |
| WireCodec.CreatePacket | golang/client.go:169-177 | Magic is 0xCCBECCBE, Type is packetType, DataSize is len(body) truncated to uint32, Result is 0, and the body is kept unchanged |
| WireCodec.FrameBytes | golang/client.go:179-189 | the frame is 16 header bytes plus the body |
| WireCodec.FrameLayout | golang/client.go:179-189 | in the frame, bytes 0-3, 4-7, 8-11 and 12-15 decode to Magic, Type, DataSize and Result, and the body follows with no gap |
| WireCodec.ReceivePacket | golang/client.go:203-233 | a short header is an I/O error; a wrong magic is rejected, then DataSize > 131072 is rejected before any body is read; a valid header followed by fewer than DataSize bytes is an I/O error that drains the stream; on success the body has exactly DataSize bytes and the stream is the packet's frame followed by what is left |
| WireCodec.ReceiveFramed | golang/client.go:179-233 | a receiver gets back exactly the packet a sender framed, with the rest of the stream untouched |
| WireCodec.ReceiveCreated | golang/client.go:169-233 | every packet CreatePacket builds with a body within the cap is received intact |
| WireCodec.ToInt32 | golang/client.go:264 | int32(x) is the two's-complement reading of x: in int32 range, congruent to x mod 2^32, and x itself below 2^31 |
| WireCodec.CheckResponse | golang/client.go:258-267 | a type mismatch fails with both type codes; otherwise a non-zero Result fails with int32(Result); only a packet passing both has its body passed on |
| WireCodec.ParseFixed | golang/client.go:92-98 | binary.Read of a fixed record succeeds iff the body is at least the record size, and yields its first bytes |
| WireCodec.ReceiveResponse | golang/client.go:252-268 | a receive error is passed on unchanged, then a failed type or result check, then the body is read as a fixed record (Truncated when shorter); a decoded response has exactly the record's size, and the stream is consumed as ReceivePacket consumes it |
| WireCodec.ResponseAccepted | golang/client.go:252-268 | a well-formed response of the expected type with Result 0 decodes to its body's first record-size bytes, and fails with Truncated when its body is shorter than the record |
| WireCodec.ResponseRejected | golang/client.go:258-265 | a response of another type, or of the right type with a non-zero result, fails with exactly the corresponding error |
| WireCodec.PingRequest | golang/client.go:295-301 | the ping buffer is 131072 bytes: the input, then zeros |
| WireCodec.ChunkWriteRequest | golang/client.go:312-321 | a chunk write request is 16 + 65536 bytes |
| WireCodec.ChunkWriteRequestRoundTrip | golang/client.go:59-62 | the request splits back into the chunk id and the data |
| WireCodec.TrimAtZero | golang/client.go:285-293 | the result is a zero-free prefix of the buffer, ending at the first zero byte or at the buffer's end |
| WireCodec.TrimAtZeroUnique | golang/client.go:285-293 | those properties determine the result uniquely |
| WireCodec.PingBufferTrimsBack | golang/client.go:295-309 | a zero-free ping input comes back unchanged after padding and trimming |
| ChunkClient.Transferred | golang/client.go:191 | the bytes a write puts on the connection are the prefix of the buffer whose length is the reported count, capped at the buffer's length, and all of it when the count covers it and no error is reported |
| ChunkClient.WriteOn | golang/client.go:191 | a write on a closed connection fails and transfers nothing; on an open one the network's outcome stands |
| ChunkClient.SendError | golang/client.go:191-200 | a send succeeds iff there is no connection error and the whole buffer went out; a connection error is reported first, as an I/O error, and otherwise a write count short of the buffer is "Incomplete I/O" |
| ChunkClient.Exchange | golang/client.go:270-283 | a failed send yields its error and reads nothing; otherwise the response is received with the request's own type |
| ChunkClient.ClosedExchangeFails | golang/client.go:270-283 | once the connection is closed, a request fails at the send with an I/O error and nothing is read |
| ChunkClient.ErrorOf | golang/client.go:323-329 | the call's error is nil iff the exchange succeeded, and otherwise is the exchange's own error |
| ChunkClient.GetString | golang/client.go:285-293 | the scan returns TrimAtZero of the buffer |
| ChunkClient.PingAgainstEcho | golang/client.go:295-309 | against an echoing server, Ping of a zero-free input returns the input and consumes exactly the echo |
| ChunkClient.ChunkReadReturnsBlock | golang/client.go:332-346 | a chunk read answered with a 65536-byte block returns that block verbatim |
| ChunkClient.Client.constructor | golang/client.go:154-158 | a new client holds its host and has no connection |
| ChunkClient.Client.Dial | golang/client.go:160-167 | only a successful dial assigns the connection; a failed one changes nothing |
| ChunkClient.Client.SendPacket | golang/client.go:179-201 | the bytes written are the transferred part of the frame, and the error is SendError of the frame; on a closed connection nothing is written and the error is an I/O error |
| ChunkClient.Client.ReadFull | golang/client.go:219-229 | exactly n bytes are taken from the stream, or an error when the peer closes with fewer left; reading after this side closed the connection is an error and takes nothing |
| ChunkClient.Client.RecvPacket | golang/client.go:203-233 | the packet and the stream left over are those given by ReceivePacket; on a closed connection an I/O error with nothing read |
| ChunkClient.Client.RecvResponse | golang/client.go:252-268 | the result and the stream left over are those given by ReceiveResponse; on a closed connection an I/O error with nothing read |
| ChunkClient.Client.SendRecv | golang/client.go:243-283 | the request frame is sent, and the result is that of Exchange |
| ChunkClient.Client.Ping | golang/client.go:295-310 | input over 131072 bytes is refused before any I/O; otherwise the zero-padded buffer is exchanged and the reply trimmed at its first zero |
| ChunkClient.Client.ChunkWrite | golang/client.go:312-330 | an id not of 16 bytes, then data not of 65536 bytes, is refused before any I/O; otherwise id + data is exchanged and its error returned |
| ChunkClient.Client.ChunkRead | golang/client.go:332-346 | an id not of 16 bytes is refused before any I/O; otherwise the returned data is the 65536-byte record of the reply |
| ChunkClient.Client.ChunkDelete | golang/client.go:348-362 | an id not of 16 bytes is refused before any I/O; otherwise the id is exchanged and its error returned |
| ChunkClient.Client.Close | golang/client.go:364-368 | the connection is closed if there is one; otherwise nothing happens; afterwards every send and read fails with an I/O error |
| HashTables.HashTable.constructor | cpp/hash_table.h:11-35 | nrBuckets empty buckets, none when an error is passed in; the table is valid when there is at least one bucket |
| HashTables.HashTable.Insert | cpp/hash_table.h:37-54 | inserted iff the key was absent; then the entry is appended at the tail of bucket KeyHash(key) % nBuckets and the contents gain key:=value; otherwise nothing changes; Valid() is kept |
| HashTables.HashTable.Remove | cpp/hash_table.h:56-71 | removed iff the key was present; then exactly its one entry is erased from its home bucket; other buckets are unchanged; Valid() is kept |
| HashTables.HashTable.Exists | cpp/hash_table.h:91-105 | true iff some entry of the key's home bucket has the key, i.e. iff the key is in the table |
| HashTables.HashTable.Get | cpp/hash_table.h:73-89 | the key must be present (KBUG_ON); the value stored with it is returned |
| HashTables.HashTable.InsertKeepsIndex | cpp/hash_table.h:37-54 | appending a fresh key at the tail of its home bucket restores Valid() |
| HashTables.HashTable.InsertKeepsLayout | cpp/hash_table.h:37-54 | after the append, every entry is still in its home bucket and keys stay distinct |
| HashTables.HashTable.InsertKeepsKeys | cpp/hash_table.h:37-54 | after the append, exactly the old keys plus the new one are found in their home buckets |
| HashTables.HashTable.InsertKeepsValues | cpp/hash_table.h:50-53 | after the append, every entry agrees with the new contents |
| HashTables.HashTable.RemoveKeepsIndex | cpp/hash_table.h:58-67 | erasing the key's entry from its home bucket restores Valid() |
| HashTables.HashTable.RemoveKeepsLayout | cpp/hash_table.h:58-67 | after the erase, every entry is still in its home bucket and keys stay distinct |
| HashTables.HashTable.RemoveKeepsKeys | cpp/hash_table.h:58-67 | after the erase, exactly the old keys other than the erased one are found |
| HashTables.HashTable.RemoveKeepsValues | cpp/hash_table.h:58-67 | after the erase, every entry agrees with the remaining contents |
| Memory.CheckRange | core/memory.h:123-129 | true iff start < end |
| Memory.CheckRangeHasPoint | core/memory.h:123-129 | CheckRange holds iff the half-open range contains a point |
| Memory.CheckIntersection | core/memory.h:131-143 | true iff both ranges are non-empty and start2 < end1 and start1 < end2 |
| Memory.IntersectionIffSharedPoint | core/memory.h:131-143 | CheckIntersection holds iff some point lies in both half-open ranges |
| Memory.IntersectionSymmetricAndEmpty | core/memory.h:131-143 | swapping the ranges does not change the result, and an empty range overlaps nothing |
| Memory.Min | core/memory.h:105-112 | returns one of its arguments, no greater than either |
| Memory.Max | core/memory.h:114-121 | returns one of its arguments, no smaller than either |
| Memory.ArrayEqual | core/memory.h:80-89 | true iff the same-size arrays agree at every index |
| Memory.StrLen | core/memory.h:65-73 | the index of the first zero; every earlier element is non-zero; a terminator must exist |
| Memory.Cell.constructor | core/memory.h:35 | a location holding the given value |
| Memory.Swap | core/memory.h:35-38 | the two locations exchange their values |
| Journal.FormatHeader | kstor/journal.cpp:95-101 | the header Format writes carries the magic, the size and the hash of the two |
| Journal.CheckHeader | kstor/journal.cpp:42-59 | wrong magic gives BadMagic, then a wrong hash gives DataCorrupt, then size <= 1 gives BadSize; Success iff none applies |
| Journal.FormattedHeaderLoads | kstor/journal.cpp:42-101 | a header written by Format passes Load's checks exactly when its size is over 1 |
| Journal.CreateTxBlock | kstor/journal.cpp:163-183 | a block exists iff the type is Begin, Data or Commit, and it carries the transaction id and the type |
| Journal.PrepareBlock | kstor/journal.cpp:567-597 | an unknown type gives InvalidValue; the three transaction types are sealed with the block's hash |
| Journal.CompleteRead | kstor/journal.cpp:529-565 | a bad hash gives DataCorrupt, then an unknown type gives InvalidValue; Success iff the hash matches and the type is a transaction type |
| Journal.PrepareThenComplete | kstor/journal.cpp:529-597 | a block sealed by the write side is accepted by the read side, and with an intact hash both sides accept the same types |
| Journal.InTxArea | kstor/journal.cpp:601-605 | an index that passes the bounds check is never the header block, and one exists only when the region has more than one block |
| Journal.HeaderIsNotTxBlock | kstor/journal.cpp:599-640 | the header block and the block past the region are never transaction blocks; the first slot after the header is one iff size > 1 |
| Journal.NextIndex | kstor/journal.cpp:684-687 | from an index at or after start in a journal of size > 1, the next index is inside the ring |
| Journal.Advance | kstor/journal.cpp:681-690 | starting inside the ring, every index the allocator hands out after any number of calls stays in [start+1, start+size) |
| Journal.AdvanceRotates | kstor/journal.cpp:681-690 | for fewer than size-1 steps, the allocator rotates through the size-1 slots after the header |
| Journal.RingSlotsDistinct | kstor/journal.cpp:681-690 | the allocator hands out size-1 different indices before it repeats one |
| Journal.WriteSlot | kstor/journal.cpp:637-657 | an index outside the ring gives InvalidValue; otherwise the block is prepared for that slot |
| Journal.WriteBlocks | kstor/journal.cpp:287-321 | the blocks are written in order up to the first failure, at most one entry per block and all of them on success; the allocator has advanced once per block tried, the failing one included |
| Journal.WriteBlocksStops | kstor/journal.cpp:287-327 | once a write has failed, later blocks change nothing |
| Journal.WriteBlocksSnoc | kstor/journal.cpp:296-309 | writing one more block extends the writes so far by that block at the next index |
| Journal.PrefixGrows | kstor/journal.cpp:296-309 | proof step of QueueBlocks's loop: the sequence identity that extends the prefix written so far by the next data block |
| Journal.PrefixSplits | kstor/journal.cpp:296-309 | proof step of QueueBlocks's loop: the sequence identity that splits the block list into the prefix written so far and the rest |
| Journal.WriteFailureIsFinal | kstor/journal.cpp:287-327 | a failure among the first blocks decides the whole WriteTx |
| Journal.WriteBlocksInRing | kstor/journal.cpp:287-321 | inside the ring every transaction block is written, block i at the i-th index handed out and sealed with its hash |
| Journal.WriteBlocksDistinct | kstor/journal.cpp:287-321 | a transaction of at most size-1 blocks never writes two of its blocks to one slot |
| Journal.SplitPage | kstor/journal.cpp:209-231 | a page with bytes left gives at least one block and an exhausted one none, and there are never more blocks than bytes |
| Journal.SplitPageStep | kstor/journal.cpp:211-231 | one loop step cuts the next block off the rest of the page |
| Journal.SplitIntoBlocks | kstor/journal.cpp:209-231 | the loop builds exactly the split SplitPage specifies |
| Journal.SplitPageShape | kstor/journal.cpp:209-233 | the split is data blocks of the transaction, each holding 1 to capacity bytes; the first starts at position and each later one where the one before ends; together they carry the page's bytes in order |
| Journal.SplitPageCoversPage | kstor/journal.cpp:209-231 | the DataSize values sum to the page size |
| Journal.HitsJournal | kstor/journal.cpp:204-207 | the write's byte range and the journal region's bytes overlap iff some byte lies in both, so an empty write never hits the journal |
| Journal.MarkCommited | kstor/journal.cpp:316-317 | the commit block's state is set to Commited and nothing else about it changes |
| Journal.Unlinked | kstor/journal.cpp:381-393 | afterwards the transaction is not linked, and no other entry is added or changed |
| Journal.BioList.constructor | kstor/journal.cpp:276 | a bio list starts empty |
| Journal.Journal.constructor | kstor/journal.cpp:17-24 | Start and Size are 0, the state is New, and there are no transactions |
| Journal.Journal.Load | kstor/journal.cpp:26-82 | a read error or a failed header check returns that error and changes nothing; otherwise Start, Size and CurrBlockIndex = Start+1 are set, which puts the allocator inside the ring; the state becomes Running, or the result is NoMemory when the commit thread object cannot be allocated; an error reported by the thread's constructor is ignored, so Load still succeeds |
| Journal.Journal.Format | kstor/journal.cpp:84-117 | size <= 1 gives InvalidValue; a failed header write returns its error; neither changes anything; on success Start and Size are set |
| Journal.Journal.GetNextBlockIndex | kstor/journal.cpp:681-690 | returns CurrBlockIndex and advances it, wrapping to Start+1; an allocator inside the ring stays there and hands out a ring index |
| Journal.Journal.ReadTxBlock | kstor/journal.cpp:599-635 | index <= Start or >= Start+Size gives InvalidValue; then read errors, then the read-side checks; a returned block has a transaction type |
| Journal.Journal.WriteTxBlock | kstor/journal.cpp:637-657 | index <= Start or >= Start+Size gives InvalidValue; an unknown type gives InvalidValue; otherwise the sealed block is queued at that index |
| Journal.Journal.BeginTx | kstor/journal.cpp:355-379 | a transaction with a fresh id is created in state New and entered in the table; an id already taken gives none |
| Journal.Journal.UnlinkTx | kstor/journal.cpp:381-393 | the table entry is removed only when it is this very transaction |
| Journal.Journal.StartCommitTx | kstor/journal.cpp:395-414 | a linked transaction is appended to the commit list; otherwise NotFound with nothing queued |
| Journal.Transaction.constructor | kstor/journal.cpp:135-161 | a new transaction is New, with a Begin and a Commit block of its id and no data blocks |
| Journal.Transaction.Write | kstor/journal.cpp:192-236 | InvalidState unless New; position < page size is an Overlap, and so is any overlap with the journal's bytes; otherwise the split of the page is appended to DataBlockList |
| Journal.Transaction.Commit | kstor/journal.cpp:243-265 | InvalidState unless New; otherwise Commiting, and when StartCommitTx fails, Canceled and out of the table with that error |
| Journal.Transaction.Cancel | kstor/journal.cpp:267-274 | Canceled with result Cancelled, and out of the table |
| Journal.Transaction.OnCommitCompleteLocked | kstor/journal.cpp:330-346 | success gives Commited; a failure gives Canceled and out of the table; the result is recorded |
| Journal.Transaction.WriteTx | kstor/journal.cpp:276-328 | InvalidState unless Commiting; otherwise Begin, the data blocks in list order and the Commit block marked Commited go to successive allocator slots, and any failure completes the transaction with that error |
| Journal.Transaction.QueueBlocks | kstor/journal.cpp:287-321 | the Ios queued, the error and the allocator's next index are those of WriteBlocks over Begin, the data blocks and the marked Commit block |
| Journal.Transaction.QueueNext | kstor/journal.cpp:287-321 | taking the next index and writing one block there extends WriteBlocks by that block |
| ControlDevices.CString | kstor/control_device.cpp:150-193 | the text of a name buffer is its NUL-free prefix, ending at the first NUL or at the buffer's end |
| ControlDevices.CStringUnique | kstor/control_device.cpp:150-193 | those properties determine the text uniquely |
| ControlDevices.Volume.constructor | kstor/control_device.cpp:34 | a volume holds the device name it was opened on and its id |
| ControlDevices.VolumeSteps | kstor/control_device.cpp:42-63 | a mount succeeds iff construction, Format when asked for, and Load all succeed; otherwise the first failure in the order construction, Format, Load is reported |
| ControlDevices.Reply | kstor/control_device.cpp:135-161 | GetTime fills the time, GetRandomUlong the random value, Mount the volume id; every other command hands its block back unchanged |
| ControlDevices.UserCmd.constructor | kstor/control_device.cpp:126 | the caller's command block holds the given command |
| ControlDevices.ControlDevice.constructor | kstor/control_device.cpp:19-23 | a new control device has an empty slot |
| ControlDevices.ControlDevice.Mount | kstor/control_device.cpp:25-67 | a filled slot gives AlreadyExists; a failed allocation gives NoMemory with the slot empty; otherwise the volume is stored before Format and Load, stays there when they fail, and its id is returned on success |
| ControlDevices.ControlDevice.Unmount | kstor/control_device.cpp:69-84 | empties the slot with Success when it holds the volume with that id; otherwise NotFound and no change |
| ControlDevices.ControlDevice.UnmountByName | kstor/control_device.cpp:86-101 | empties the slot with Success when it holds the volume opened on that device; otherwise NotFound and no change |
| ControlDevices.ControlDevice.ChunkCreate | kstor/control_device.cpp:233-242 | NotFound with no volume mounted; otherwise the volume's result |
| ControlDevices.ControlDevice.ChunkWrite | kstor/control_device.cpp:244-253 | NotFound with no volume mounted; otherwise the volume's result |
| ControlDevices.ControlDevice.ChunkRead | kstor/control_device.cpp:255-264 | NotFound with no volume mounted; otherwise the volume's result |
| ControlDevices.ControlDevice.ChunkDelete | kstor/control_device.cpp:266-275 | NotFound with no volume mounted; otherwise the volume's result |
| ControlDevices.ControlDevice.Ioctl | kstor/control_device.cpp:114-227 | a failed copy-in returns its error; a device-name or host buffer without its final NUL gives InvalidValue; an unknown code gives UnknownCode; each other code runs its own handler (the clock, the generator, Mount, either Unmount, the server), whose error is returned, and on its success copy_to_user's; Mount and the Unmounts change the slot exactly as they do on their own, and nothing else touches it; the block is copied back only when the command and the copy succeed |
| ControlDevices.DeviceRegistry.constructor | kstor/control_device.cpp:277-280 | initially there is no control device |
| ControlDevices.DeviceRegistry.Create | kstor/control_device.cpp:282-304 | InvalidState if a device exists; a failed allocation gives NoMemory; a failed construction drops the device again and returns its error |
| ControlDevices.DeviceRegistry.Delete | kstor/control_device.cpp:306-313 | afterwards there is no device; without one nothing happens |

## Left out

- Real network I/O (`net.Dial`, `net.Conn`), `log` output and the client's `main` are not modelled. The connection is two byte sequences, and what a write transfers and what dialing yields are parameters.
- `encoding/binary` reflection is replaced by an explicit field-by-field little-endian codec.
- ChunkClient.Client.RecvPacket: it omits the check `uint32(n) != DataSize` after `io.ReadFull`. ReadFull either fills the whole buffer or returns an error, so that branch cannot be reached.
- ChunkClient.Client.SendPacket: it requires a connection, as do ReadFull, RecvPacket, RecvResponse, SendRecv and the request methods. In the source, a call before a successful Dial uses a nil `Con` and panics; the model does not capture that panic.
- ChunkClient.Client.Close: closing is a flag that makes every later write and read fail with an I/O error. The error text Go gives for a closed connection is not modelled.
- ChunkClient.Client.ReadFull: every short read is one I/O error. The model does not tell `io.EOF` from `io.ErrUnexpectedEOF`.
- HashTables.HashTable.Insert: `KeyCmp(a, b) == 0` is modelled as key equality, and `KeyHash` as a function to `nat`.
- HashTables.HashTable.constructor: a failed `Reserve` or `PushBack` is not modelled. The source assigns E_NO_MEM to a by-value parameter, so the caller never sees it.
- core/hash_table.h, the table behind the journal's TxTable, is not part of this model. TxTable is a `map` from transaction id to transaction.
- Journal.Journal.UnlinkTx and Journal.Journal.StartCommitTx: a TxTable lookup of an absent id is taken as "not this transaction". This is an assumption, because the table's lookup is in core/hash_table.h.
- HashTables.HashTable.Get: the source returns `V&`, so a caller can update the stored value through it. The model returns a copy, and updates go through Remove and Insert.
- `Malloc`, `Free`, `MemSet`, `MemCmp`, `MemCpy`, `MemAdd`, `VsnPrintf`, `Move` and `Forward` are foreign kernel calls and pointer casts, and are not modelled.
- The journal's commit thread (`Run`), `Stop`, the events, the waits and the locks are not modelled, because their point is concurrency.
- Journal.Transaction.Commit: it does not model the wait for the commit thread or the return of CommitResult. It returns Success once the transaction is queued.
- `Journal::WriteTx` only forwards to `Transaction::WriteTx` and has no member of its own. `Replay` always succeeds and is folded into Load, and `Flush` is not modelled.
- XXHash is an uninterpreted function field of the journal, and `Guid::Generate` becomes the `txId` parameter of BeginTx.
- Journal.Journal.BeginTx: it does not model a failure to allocate the transaction or to generate its id. Insertion fails only for an id already in the table.
- Journal.Transaction.Write: it does not model the NoMemory returns when a block or a list node cannot be allocated.
- Journal.Transaction.Write: `page.Read(block->Data, sizeof(block->Data), off)` is taken to copy and return exactly `Min(capacity, size - off)` bytes from `page[off..]`. The page class that defines Read is not part of this model. SplitPage, SplitIntoBlocks, SplitPageShape and SplitPageCoversPage rest on this. A Read returning 0 would make the source loop run forever, and that case is not modelled.
- Journal.Journal.Load: the source tests only whether the commit thread object was allocated and never looks at the error its constructor reports through `err`. The model does the same: `threadErr` has no effect, and the journal becomes Running with Success even when the thread failed to start. Whether the thread then runs is not modelled.
- Journal.Journal.StartCommitTx: it does not model the NoMemory return when TxList cannot grow.
- Journal.Journal.ReadTxBlock: the page allocation and the device read are folded into the `read` parameter. The NoMemory and UnexpectedEOF returns after the checks are not modelled.
- Journal.Journal.WriteTxBlock: it does not model a failure to allocate the page, a short page write or a failing `AddIo`. A block that passes the checks is always queued.
- Journal.Journal.Format: the disk is not modelled. Writing FormatHeader at block `start` is the `writeErr` parameter, and the round trip with Load is the lemma FormattedHeaderLoads.
- Journal.HitsJournal: `position + pageSize`, `Start * blockSize` and `(Start + Size) * blockSize` are taken unbounded. uint64 wrap-around is not modelled.
- Journal.Journal.GetNextBlockIndex: `CurrBlockIndex + 1` and `Start + Size` are taken unbounded. uint64 wrap-around is not modelled.
- Journal.Journal.constructor: the source leaves CurrBlockIndex uninitialised until Load. The model starts it at 0.
- Byte-order conversions (`Le32ToCpu` and similar) are the identity, because blocks are values rather than byte images.
- The volume's own operations (construction, Format, Load, the chunk calls) are outcomes passed in. Its internals and the chunk data buffers are not modelled.
- `CopyFromUser`, `CopyToUser`, `Time::GetTime`, `Rng.GetUlong` and `Srv.Start` are outcomes passed to Ioctl. `Srv.Stop` has no modelled effect.
- ControlDevices.ControlDevice.Ioctl: building an AString from a terminated buffer is taken to succeed and to yield CString of the buffer. Its allocation failure is not modelled.
- ControlDevices.ControlDevice.Ioctl: when the command block cannot be allocated, the source returns the initial Success, and the model does the same.
- The command block's union is modelled as separate fields of one datatype.
- The ctl tool, the test driver, the threads and workers, and the thin kernel-API wrappers (bio, block device, misc device, random) are not modelled.
