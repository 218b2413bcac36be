/** The bookkeeping of the volume's write-ahead journal (KStor::Journal, KStor::Transaction).
    Block 0 of the journal region [start, start + size) holds the header; blocks
    start + 1 .. start + size - 1 form a ring that transaction blocks are written to in turn. */
module Journal {
  import opened Types
  import opened KError
  import Memory

  datatype JournalState = JournalStateNew | JournalStateReplaying | JournalStateRunning
                        | JournalStateStopping | JournalStateStopped

  datatype TxState = TxNew | TxCommiting | TxCommited | TxCanceled

  /** The type code of a transaction block; any code but the three transaction types is Unknown. */
  datatype BlockType = TxBegin | TxData | TxCommit | Unknown(code: int)

  predicate IsTxBlockType(t: BlockType)
  {
    !t.Unknown?
  }

  /** A transaction block in memory. Data blocks carry the byte position they belong at and the
      bytes themselves; a commit block carries the commit state (None while it was never set). */
  datatype TxBlock = TxBlock(txId: Guid, blockType: BlockType, position: nat, dataSize: nat,
                             data: seq<Byte>, commitState: Option<TxState>)

  /** A block as it goes to the device: the block and the hash sealing it. */
  datatype BlockImage = BlockImage(block: TxBlock, hash: seq<Byte>)

  /** The journal header at block `start`. */
  datatype JournalHeader = JournalHeader(magic: U32, size: nat, hash: seq<Byte>)

  /** An Io queued on the no-I/O bio list: the block index and the image written there. */
  type QueuedIo = (nat, BlockImage)

  // ---------------------------------------------------------------- header

  /** The header Format writes: the magic, the size, and the hash of the two. */
  function FormatHeader(size: nat, journalMagic: U32, headerHash: (U32, nat) -> seq<Byte>): (h: JournalHeader)
    ensures h.magic == journalMagic && h.size == size && h.hash == headerHash(h.magic, h.size)
  {
    JournalHeader(journalMagic, size, headerHash(journalMagic, size))
  }

  /** Load's checks on the header read back, in order: magic, hash, size. */
  function CheckHeader(h: JournalHeader, journalMagic: U32, headerHash: (U32, nat) -> seq<Byte>): (e: Error)
    ensures h.magic != journalMagic ==> e == BadMagic
    ensures h.magic == journalMagic && h.hash != headerHash(h.magic, h.size) ==> e == DataCorrupt
    ensures h.magic == journalMagic && h.hash == headerHash(h.magic, h.size) && h.size <= 1 ==> e == BadSize
    ensures e == Success <==> h.magic == journalMagic && h.hash == headerHash(h.magic, h.size) && h.size > 1
  {
    if h.magic != journalMagic then BadMagic
    else if h.hash != headerHash(h.magic, h.size) then DataCorrupt
    else if h.size <= 1 then BadSize
    else Success
  }

  /** A header written by Format passes Load's checks exactly when its size was one Format accepts. */
  lemma FormattedHeaderLoads(size: nat, journalMagic: U32, headerHash: (U32, nat) -> seq<Byte>)
    ensures CheckHeader(FormatHeader(size, journalMagic, headerHash), journalMagic, headerHash) ==
              (if size > 1 then Success else BadSize)
  {
  }

  // ---------------------------------------------------------------- blocks

  /** CreateTxBlock: a fresh block of the transaction, or nothing for a type that is not a
      transaction block type. */
  function CreateTxBlock(txId: Guid, t: BlockType): (b: Option<TxBlock>)
    ensures b.Some? <==> IsTxBlockType(t)
    ensures b.Some? ==> b.value.txId == txId && b.value.blockType == t && b.value.data == []
                        && b.value.dataSize == 0 && b.value.commitState.None?
  {
    if IsTxBlockType(t) then Some(TxBlock(txId, t, 0, 0, [], None)) else None
  }

  /** WriteTxBlockPrepare: accepts the three transaction types and seals the block with its hash. */
  function PrepareBlock(block: TxBlock, blockHash: TxBlock -> seq<Byte>): (r: Result<BlockImage, Error>)
    ensures r.Err? <==> !IsTxBlockType(block.blockType)
    ensures r.Err? ==> r.error == InvalidValue
    ensures r.Ok? ==> r.value.block == block && r.value.hash == blockHash(block)
  {
    if IsTxBlockType(block.blockType) then Ok(BlockImage(block, blockHash(block))) else Err(InvalidValue)
  }

  /** ReadTxBlockComplete: the hash is checked first, then the type. */
  function CompleteRead(image: BlockImage, blockHash: TxBlock -> seq<Byte>): (e: Error)
    ensures image.hash != blockHash(image.block) ==> e == DataCorrupt
    ensures image.hash == blockHash(image.block) && !IsTxBlockType(image.block.blockType) ==> e == InvalidValue
    ensures e == Success <==> image.hash == blockHash(image.block) && IsTxBlockType(image.block.blockType)
  {
    if image.hash != blockHash(image.block) then DataCorrupt
    else if !IsTxBlockType(image.block.blockType) then InvalidValue
    else Success
  }

  /** A block sealed by PrepareBlock is accepted when read back, and for an image whose hash is
      intact the read side accepts exactly the types the write side accepts. */
  lemma PrepareThenComplete(block: TxBlock, image: BlockImage, blockHash: TxBlock -> seq<Byte>)
    ensures PrepareBlock(block, blockHash).Ok? ==> CompleteRead(PrepareBlock(block, blockHash).value, blockHash) == Success
    ensures image.hash == blockHash(image.block) ==>
              (CompleteRead(image, blockHash) == Success <==> PrepareBlock(image.block, blockHash).Ok?)
  {
  }

  // ---------------------------------------------------------------- the ring of transaction blocks

  /** The bounds check of ReadTxBlock and WriteTxBlock: only blocks strictly after the header
      and inside the journal region hold transaction blocks. */
  function InTxArea(start: nat, size: nat, index: nat): (r: bool)
    ensures r ==> index != start && size > 1
  {
    start < index < start + size
  }

  lemma HeaderIsNotTxBlock(start: nat, size: nat)
    ensures !InTxArea(start, size, start) && !InTxArea(start, size, start + size)
    ensures InTxArea(start, size, start + 1) <==> size > 1
  {
  }

  /** The value GetNextBlockIndex leaves in CurrBlockIndex after handing out `cur`. */
  function NextIndex(start: nat, size: nat, cur: nat): (next: nat)
    ensures size > 1 && cur >= start ==> InTxArea(start, size, next)
  {
    if cur + 1 >= start + size then start + 1 else cur + 1
  }

  /** The index handed out after `k` further calls of GetNextBlockIndex, starting at `cur`.
      The allocator never leaves the ring once inside it. */
  function Advance(start: nat, size: nat, cur: nat, k: nat): (r: nat)
    ensures size > 1 && InTxArea(start, size, cur) ==> InTxArea(start, size, r)
  {
    if k == 0 then cur else NextIndex(start, size, Advance(start, size, cur, k - 1))
  }

  /** Inside the ring, the allocator is a rotation: for fewer than size - 1 steps, the k-th
      index from `cur` is `cur` moved k places round the size - 1 transaction slots
      (offset d + k from the first slot, less size - 1 once it passes the last one). */
  lemma {:induction false} AdvanceRotates(start: nat, size: nat, cur: nat, k: nat)
    requires size > 1 && InTxArea(start, size, cur)
    requires k < size - 1
    ensures var d := cur - start - 1;
            Advance(start, size, cur, k) == start + 1 + (if d + k < size - 1 then d + k else d + k - (size - 1))
  {
    if k > 0 {
      AdvanceRotates(start, size, cur, k - 1);
    }
  }

  /** The allocator hands out size - 1 different indices before it repeats one. */
  lemma RingSlotsDistinct(start: nat, size: nat, cur: nat, i: nat, j: nat)
    requires size > 1 && InTxArea(start, size, cur)
    requires i < j < size - 1
    ensures Advance(start, size, cur, i) != Advance(start, size, cur, j)
  {
    AdvanceRotates(start, size, cur, i);
    AdvanceRotates(start, size, cur, j);
  }

  /** WriteTxBlock's outcome for one block at `index`: the bounds check, then the preparation. */
  function WriteSlot(start: nat, size: nat, blockHash: TxBlock -> seq<Byte>, index: nat, block: TxBlock): (r: Result<BlockImage, Error>)
    ensures !InTxArea(start, size, index) ==> r == Err(InvalidValue)
    ensures InTxArea(start, size, index) ==> r == PrepareBlock(block, blockHash)
  {
    if !InTxArea(start, size, index) then Err(InvalidValue) else PrepareBlock(block, blockHash)
  }

  /** Writing `blocks` one after the other, each at the next index the allocator hands out,
      starting at `cur` and stopping at the first failed write: the Ios queued, the error, and
      the allocator's next index. */
  function WriteBlocks(start: nat, size: nat, blockHash: TxBlock -> seq<Byte>, cur: nat, blocks: seq<TxBlock>)
    : (r: (seq<QueuedIo>, Error, nat))
    ensures |r.0| <= |blocks| && (r.1 == Success ==> |r.0| == |blocks|)
    ensures r.2 == Advance(start, size, cur, if r.1 == Success then |blocks| else |r.0| + 1)
    decreases |blocks|
  {
    if blocks == [] then ([], Success, cur)
    else
      var before := WriteBlocks(start, size, blockHash, cur, blocks[..|blocks| - 1]);
      if before.1 != Success then before
      else
        var index := before.2;
        var w := WriteSlot(start, size, blockHash, index, blocks[|blocks| - 1]);
        if w.Err? then (before.0, w.error, NextIndex(start, size, index))
        else (before.0 + [(index, w.value)], Success, NextIndex(start, size, index))
  }

  /** Once a write has failed, later blocks change nothing. */
  lemma {:induction false} WriteBlocksStops(start: nat, size: nat, blockHash: TxBlock -> seq<Byte>, cur: nat,
                                            blocks: seq<TxBlock>, more: seq<TxBlock>)
    requires WriteBlocks(start, size, blockHash, cur, blocks).1 != Success
    ensures WriteBlocks(start, size, blockHash, cur, blocks + more) == WriteBlocks(start, size, blockHash, cur, blocks)
    decreases |more|
  {
    if more != [] {
      var all := blocks + more;
      assert all[..|all| - 1] == blocks + more[..|more| - 1];
      WriteBlocksStops(start, size, blockHash, cur, blocks, more[..|more| - 1]);
    } else {
      assert blocks + more == blocks;
    }
  }

  /** Writing one more block after `blocks`. */
  lemma WriteBlocksSnoc(start: nat, size: nat, blockHash: TxBlock -> seq<Byte>, cur: nat,
                        blocks: seq<TxBlock>, last: TxBlock)
    ensures var before := WriteBlocks(start, size, blockHash, cur, blocks);
            var w := WriteSlot(start, size, blockHash, before.2, last);
            WriteBlocks(start, size, blockHash, cur, blocks + [last]) ==
              if before.1 != Success then before
              else if w.Err? then (before.0, w.error, NextIndex(start, size, before.2))
              else (before.0 + [(before.2, w.value)], Success, NextIndex(start, size, before.2))
  {
    assert (blocks + [last])[..|blocks|] == blocks;
  }

  /** The blocks written so far grow by the next data block. */
  lemma PrefixGrows(first: TxBlock, rest: seq<TxBlock>, k: nat)
    requires k < |rest|
    ensures [first] + rest[..k] + [rest[k]] == [first] + rest[..k + 1]
  {
    assert rest[..k + 1] == rest[..k] + [rest[k]];
  }

  /** The blocks of a transaction are the ones written so far followed by the rest. */
  lemma PrefixSplits(first: TxBlock, rest: seq<TxBlock>, k: nat)
    requires k <= |rest|
    ensures [first] + rest == [first] + rest[..k] + rest[k..]
    ensures k == |rest| ==> [first] + rest[..k] == [first] + rest
  {
    assert rest == rest[..k] + rest[k..];
  }

  /** A failed write among the first blocks fixes the outcome of the whole transaction. */
  lemma WriteFailureIsFinal(start: nat, size: nat, blockHash: TxBlock -> seq<Byte>, cur: nat,
                            done: seq<TxBlock>, rest: seq<TxBlock>, last: TxBlock)
    requires WriteBlocks(start, size, blockHash, cur, done).1 != Success
    ensures WriteBlocks(start, size, blockHash, cur, done + rest + [last]) == WriteBlocks(start, size, blockHash, cur, done)
    ensures WriteBlocks(start, size, blockHash, cur, done + rest) == WriteBlocks(start, size, blockHash, cur, done)
  {
    WriteBlocksStops(start, size, blockHash, cur, done, rest);
    WriteBlocksStops(start, size, blockHash, cur, done, rest + [last]);
    assert done + rest + [last] == done + (rest + [last]);
  }

  /** Inside a ring, blocks of the three transaction types are all written: block i goes to the
      i-th index the allocator hands out, sealed with its hash. */
  lemma {:induction false} WriteBlocksInRing(start: nat, size: nat, blockHash: TxBlock -> seq<Byte>, cur: nat,
                                             blocks: seq<TxBlock>)
    requires size > 1 && InTxArea(start, size, cur)
    requires forall i :: 0 <= i < |blocks| ==> IsTxBlockType(blocks[i].blockType)
    ensures var r := WriteBlocks(start, size, blockHash, cur, blocks);
            && r.1 == Success && |r.0| == |blocks| && r.2 == Advance(start, size, cur, |blocks|)
            && forall i :: 0 <= i < |blocks| ==>
                 r.0[i] == (Advance(start, size, cur, i), BlockImage(blocks[i], blockHash(blocks[i])))
    decreases |blocks|
  {
    if blocks != [] {
      var n := |blocks| - 1;
      WriteBlocksInRing(start, size, blockHash, cur, blocks[..n]);
      var r0 := WriteBlocks(start, size, blockHash, cur, blocks[..n]);
      assert InTxArea(start, size, r0.2);
      assert forall i :: 0 <= i < n ==> blocks[..n][i] == blocks[i];
    }
  }

  /** A transaction of at most size - 1 blocks never overwrites one of its own blocks. */
  lemma WriteBlocksDistinct(start: nat, size: nat, blockHash: TxBlock -> seq<Byte>, cur: nat,
                            blocks: seq<TxBlock>, i: nat, j: nat)
    requires size > 1 && InTxArea(start, size, cur)
    requires forall k :: 0 <= k < |blocks| ==> IsTxBlockType(blocks[k].blockType)
    requires |blocks| <= size - 1 && i < j < |blocks|
    ensures var ios := WriteBlocks(start, size, blockHash, cur, blocks).0;
            |ios| == |blocks| && ios[i].0 != ios[j].0
  {
    WriteBlocksInRing(start, size, blockHash, cur, blocks);
    RingSlotsDistinct(start, size, cur, i, j);
  }

  // ---------------------------------------------------------------- splitting a page write

  /** The bytes carried by a list of data blocks, in list order. */
  function Payload(blocks: seq<TxBlock>): seq<Byte>
  {
    if blocks == [] then [] else blocks[0].data + Payload(blocks[1..])
  }

  /** The sum of the DataSize fields of a list of blocks. */
  function TotalSize(blocks: seq<TxBlock>): nat
  {
    if blocks == [] then 0 else blocks[0].dataSize + TotalSize(blocks[1..])
  }

  /** Block i + 1 starts where block i ends. */
  predicate Follows(blocks: seq<TxBlock>, i: nat)
    requires i + 1 < |blocks|
  {
    blocks[i + 1].position == blocks[i].position + blocks[i].dataSize
  }

  /** Each block starts where the one before it ends. */
  predicate Consecutive(blocks: seq<TxBlock>)
  {
    forall i: nat :: i + 1 < |blocks| ==> Follows(blocks, i)
  }

  /** The data blocks Transaction::Write makes of the bytes of `page` from offset `off` on,
      written at byte `position`: each holds as many bytes as fit (`capacity`), the last one
      what is left. */
  function SplitPage(txId: Guid, page: seq<Byte>, off: nat, position: nat, capacity: nat): (r: seq<TxBlock>)
    requires capacity > 0 && off <= |page|
    ensures (r == []) == (off == |page|)
    ensures |r| <= |page| - off
    decreases |page| - off
  {
    if off == |page| then []
    else
      var read := Memory.Min(capacity, |page| - off);
      [TxBlock(txId, TxData, position, read, page[off..off + read], None)]
        + SplitPage(txId, page, off + read, position + read, capacity)
  }

  /** Cutting the first block off the rest of the page. */
  lemma SplitPageStep(txId: Guid, page: seq<Byte>, off: nat, position: nat, capacity: nat, done: seq<TxBlock>)
    requires capacity > 0 && off < |page|
    ensures var read := Memory.Min(capacity, |page| - off);
            done + SplitPage(txId, page, off, position, capacity) ==
              (done + [TxBlock(txId, TxData, position, read, page[off..off + read], None)])
                + SplitPage(txId, page, off + read, position + read, capacity)
  {
  }

  /** The splitting loop of Write: cuts `page` into data blocks of at most `capacity` bytes,
      bound for consecutive positions from `position`. */
  method SplitIntoBlocks(txId: Guid, page: seq<Byte>, position: nat, capacity: nat) returns (blockList: seq<TxBlock>)
    requires capacity > 0
    ensures blockList == SplitPage(txId, page, 0, position, capacity)
  {
    ghost var whole := SplitPage(txId, page, 0, position, capacity);
    blockList := [];
    var off := 0;
    var pos := position;
    while off < |page|
      invariant off <= |page| && pos == position + off
      invariant blockList + SplitPage(txId, page, off, pos, capacity) == whole
      decreases |page| - off
    {
      var block := CreateTxBlock(txId, TxData).value;
      var read := Memory.Min(capacity, |page| - off);
      block := block.(position := pos, dataSize := read, data := page[off..off + read]);
      assert block == TxBlock(txId, TxData, pos, read, page[off..off + read], None);
      SplitPageStep(txId, page, off, pos, capacity, blockList);
      blockList := blockList + [block];
      off := off + read;
      pos := pos + read;
    }
    assert blockList + [] == blockList;
  }

  /** The split is a list of data blocks of the transaction, each non-empty and no larger than
      the capacity; the first starts at `position`, each later one where the one before it ends,
      and together they carry the page's bytes in order. */
  lemma {:induction false} SplitPageShape(txId: Guid, page: seq<Byte>, off: nat, position: nat, capacity: nat)
    requires capacity > 0 && off <= |page|
    ensures var blocks := SplitPage(txId, page, off, position, capacity);
            && (forall i :: 0 <= i < |blocks| ==>
                  && blocks[i].txId == txId && blocks[i].blockType == TxData
                  && 0 < blocks[i].dataSize <= capacity && |blocks[i].data| == blocks[i].dataSize)
            && (off < |page| ==> |blocks| > 0 && blocks[0].position == position)
            && Consecutive(blocks)
            && Payload(blocks) == page[off..]
    decreases |page| - off
  {
    if off < |page| {
      var read := Memory.Min(capacity, |page| - off);
      var rest := SplitPage(txId, page, off + read, position + read, capacity);
      var blocks := SplitPage(txId, page, off, position, capacity);
      SplitPageShape(txId, page, off + read, position + read, capacity);
      assert blocks[1..] == rest;
      forall i: nat | i + 1 < |blocks|
        ensures Follows(blocks, i)
      {
        if i > 0 {
          assert Follows(rest, i - 1);
        }
      }
      assert page[off..] == page[off..off + read] + page[off + read..];
    }
  }

  /** The data sizes of the split add up to the number of bytes split. */
  lemma {:induction false} SplitPageCoversPage(txId: Guid, page: seq<Byte>, off: nat, position: nat, capacity: nat)
    requires capacity > 0 && off <= |page|
    ensures TotalSize(SplitPage(txId, page, off, position, capacity)) == |page| - off
    decreases |page| - off
  {
    if off < |page| {
      var read := Memory.Min(capacity, |page| - off);
      var blocks := SplitPage(txId, page, off, position, capacity);
      assert blocks[1..] == SplitPage(txId, page, off + read, position + read, capacity);
      SplitPageCoversPage(txId, page, off + read, position + read, capacity);
    }
  }

  /** The byte range [position, position + length) overlaps the journal region's bytes. */
  function HitsJournal(position: nat, length: nat, start: nat, size: nat, blockSize: nat): (r: bool)
    ensures r <==> Memory.SharePoint(position, position + length, start * blockSize, (start + size) * blockSize)
    ensures length == 0 ==> !r
  {
    Memory.IntersectionIffSharedPoint(position, position + length, start * blockSize, (start + size) * blockSize);
    Memory.CheckIntersection(position, position + length, start * blockSize, (start + size) * blockSize)
  }

  /** The commit block as WriteTx writes it: its state set to Commited. */
  function MarkCommited(b: TxBlock): (c: TxBlock)
    ensures c.commitState == Some(TxCommited)
    ensures c.txId == b.txId && c.blockType == b.blockType && c.data == b.data
    ensures c.position == b.position && c.dataSize == b.dataSize
  {
    b.(commitState := Some(TxCommited))
  }

  /** The transaction's table entry is this very transaction. */
  predicate Linked(table: map<Guid, Transaction>, tx: Transaction)
  {
    tx.txId in table && table[tx.txId] == tx
  }

  /** The table after UnlinkTx(tx). */
  function Unlinked(table: map<Guid, Transaction>, tx: Transaction): (t: map<Guid, Transaction>)
    ensures !Linked(t, tx)
    ensures forall id :: id != tx.txId ==> (id in t <==> id in table)
    ensures forall id :: id in t ==> id in table && t[id] == table[id]
  {
    if Linked(table, tx) then table - {tx.txId} else table
  }

  // ---------------------------------------------------------------- objects

  /** The no-I/O bio list WriteTx fills: the Ios queued so far, in order. */
  class BioList {
    var ios: seq<QueuedIo>

    constructor ()
      ensures ios == []
    {
      ios := [];
    }
  }

  class Journal {
    /** The volume's block size. */
    const blockSize: nat
    /** The on-disk magic of the journal header. */
    const journalMagic: U32
    /** XXHash of a header's fields before its Hash field. */
    const headerHash: (U32, nat) -> seq<Byte>
    /** XXHash of a transaction block's fields before its Hash field. */
    const blockHash: TxBlock -> seq<Byte>
    /** How many bytes the Data array of a data block holds. */
    const dataCapacity: nat

    var start: nat
    var size: nat
    var state: JournalState
    /** The next index GetNextBlockIndex hands out. */
    var currBlockIndex: nat
    var txTable: map<Guid, Transaction>
    /** Transactions handed to the commit thread, oldest first. */
    var txList: seq<Transaction>

    constructor (blockSize: nat, journalMagic: U32, headerHash: (U32, nat) -> seq<Byte>,
                 blockHash: TxBlock -> seq<Byte>, dataCapacity: nat)
      ensures this.blockSize == blockSize && this.journalMagic == journalMagic
      ensures this.headerHash == headerHash && this.blockHash == blockHash && this.dataCapacity == dataCapacity
      ensures start == 0 && size == 0 && state == JournalStateNew
      ensures txTable == map[] && txList == []
    {
      this.blockSize := blockSize;
      this.journalMagic := journalMagic;
      this.headerHash := headerHash;
      this.blockHash := blockHash;
      this.dataCapacity := dataCapacity;
      start, size, state := 0, 0, JournalStateNew;
      currBlockIndex := 0;
      txTable, txList := map[], [];
    }

    /** The allocator is inside the ring. */
    ghost predicate RingValid()
      reads this
    {
      size > 1 && InTxArea(start, size, currBlockIndex)
    }

    /** Load(start): `read` is the outcome of reading block `start` (an I/O error, or the
        header found there); `threadAllocated` whether the commit thread object could be
        allocated, and `threadErr` the error its constructor reports, which Load never looks at. */
    method Load(start: nat, read: Result<JournalHeader, Error>, threadAllocated: bool, threadErr: Error)
      returns (err: Error)
      modifies this`start, this`size, this`state, this`currBlockIndex
      ensures read.Err? ==> err == read.error && unchanged(this)
      ensures read.Ok? && CheckHeader(read.value, journalMagic, headerHash) != Success ==>
                err == CheckHeader(read.value, journalMagic, headerHash) && unchanged(this)
      ensures read.Ok? && CheckHeader(read.value, journalMagic, headerHash) == Success ==>
                && this.start == start && size == read.value.size && currBlockIndex == start + 1
                && state == (if threadAllocated then JournalStateRunning else JournalStateReplaying)
                && err == (if threadAllocated then Success else NoMemory)
                && RingValid()
      // a thread whose constructor failed still counts as started
      ensures read.Ok? && CheckHeader(read.value, journalMagic, headerHash) == Success &&
              threadAllocated && threadErr != Success ==>
                err == Success && state == JournalStateRunning
    {
      if read.Err? {
        return read.error;
      }
      var header := read.value;
      if header.magic != journalMagic {
        return BadMagic;
      }
      if header.hash != headerHash(header.magic, header.size) {
        return DataCorrupt;
      }
      if header.size <= 1 {
        return BadSize;
      }
      this.start := start;
      size := header.size;
      state := JournalStateReplaying;   // Replay
      currBlockIndex := start + 1;
      if !threadAllocated {
        return NoMemory;
      }
      state := JournalStateRunning;
      return Success;
    }

    /** Format(start, size): writes FormatHeader(size) at block `start`; `writeErr` is the
        outcome of that write. */
    method Format(start: nat, size: nat, writeErr: Error) returns (err: Error)
      modifies this`start, this`size
      ensures size <= 1 ==> err == InvalidValue && unchanged(this)
      ensures size > 1 && writeErr != Success ==> err == writeErr && unchanged(this)
      ensures size > 1 && writeErr == Success ==> err == Success && this.start == start && this.size == size
    {
      if size <= 1 {
        return InvalidValue;
      }
      if writeErr != Success {
        return writeErr;
      }
      this.start := start;
      this.size := size;
      return Success;
    }

    /** Hands out the current index and advances, wrapping to the first slot after the header. */
    method GetNextBlockIndex() returns (err: Error, index: nat)
      modifies this`currBlockIndex
      ensures err == Success && index == old(currBlockIndex)
      ensures currBlockIndex == NextIndex(start, size, index)
      ensures old(RingValid()) ==> RingValid() && InTxArea(start, size, index)
    {
      index := currBlockIndex;
      if currBlockIndex + 1 >= start + size {
        currBlockIndex := start + 1;
      } else {
        currBlockIndex := currBlockIndex + 1;
      }
      return Success, index;
    }

    /** ReadTxBlock(index): `read` is the outcome of reading the block at `index`. */
    method ReadTxBlock(index: nat, read: Result<BlockImage, Error>) returns (r: Result<TxBlock, Error>)
      ensures !InTxArea(start, size, index) ==> r == Err(InvalidValue)
      ensures InTxArea(start, size, index) && read.Err? ==> r == Err(read.error)
      ensures InTxArea(start, size, index) && read.Ok? ==>
                r == if CompleteRead(read.value, blockHash) == Success then Ok(read.value.block)
                     else Err(CompleteRead(read.value, blockHash))
      ensures r.Ok? ==> InTxArea(start, size, index) && IsTxBlockType(r.value.blockType)
    {
      if index <= start || index >= start + size {
        return Err(InvalidValue);
      }
      if read.Err? {
        return Err(read.error);
      }
      var e := CompleteRead(read.value, blockHash);
      if e != Success {
        return Err(e);
      }
      return Ok(read.value.block);
    }

    /** WriteTxBlock(index, block, bioList): checks the index, seals the block and queues it. */
    method WriteTxBlock(index: nat, block: TxBlock, bioList: BioList) returns (err: Error)
      modifies bioList
      ensures var w := WriteSlot(start, size, blockHash, index, block);
              && (w.Err? ==> err == w.error && bioList.ios == old(bioList.ios))
              && (w.Ok? ==> err == Success && bioList.ios == old(bioList.ios) + [(index, w.value)])
    {
      if index <= start || index >= start + size {
        return InvalidValue;
      }
      var image := PrepareBlock(block, blockHash);
      if image.Err? {
        return image.error;
      }
      bioList.ios := bioList.ios + [(index, image.value)];
      return Success;
    }

    /** BeginTx: a new transaction with id `txId` (drawn at random in the source), entered in
        the table; none when the id is already taken. */
    method BeginTx(txId: Guid) returns (tx: Transaction?)
      modifies this`txTable
      ensures txId in old(txTable) ==> tx == null && txTable == old(txTable)
      ensures txId !in old(txTable) ==>
                && tx != null && fresh(tx) && tx.journal == this && tx.txId == txId
                && tx.state == TxNew && tx.dataBlockList == [] && tx.commitResult == Success
                && txTable == old(txTable)[txId := tx]
    {
      var t := new Transaction(this, txId);
      if txId in txTable {
        return null;
      }
      txTable := txTable[txId := t];
      return t;
    }

    /** Removes the table entry of `tx`, if that entry is `tx` itself. */
    method UnlinkTx(tx: Transaction)
      modifies this`txTable
      ensures txTable == Unlinked(old(txTable), tx)
      ensures Linked(old(txTable), tx) ==> txTable == old(txTable) - {tx.txId}
    {
      if tx.txId in txTable && txTable[tx.txId] == tx {
        txTable := txTable - {tx.txId};
      }
    }

    /** Queues `tx` for the commit thread, if its table entry is `tx` itself. */
    method StartCommitTx(tx: Transaction) returns (err: Error)
      modifies this`txList
      ensures Linked(txTable, tx) ==> err == Success && txList == old(txList) + [tx]
      ensures !Linked(txTable, tx) ==> err == NotFound && txList == old(txList)
    {
      if !(tx.txId in txTable && txTable[tx.txId] == tx) {
        return NotFound;
      }
      txList := txList + [tx];
      return Success;
    }
  }

  class Transaction {
    const journal: Journal
    const txId: Guid
    const beginBlock: TxBlock
    var commitBlock: TxBlock
    var state: TxState
    var commitResult: Error
    var dataBlockList: seq<TxBlock>

    constructor (journal: Journal, txId: Guid)
      ensures this.journal == journal && this.txId == txId
      ensures state == TxNew && commitResult == Success && dataBlockList == []
      ensures Some(beginBlock) == CreateTxBlock(txId, TxBegin)
      ensures Some(commitBlock) == CreateTxBlock(txId, TxCommit)
    {
      this.journal := journal;
      this.txId := txId;
      beginBlock := CreateTxBlock(txId, TxBegin).value;
      commitBlock := CreateTxBlock(txId, TxCommit).value;
      state := TxNew;
      commitResult := Success;
      dataBlockList := [];
    }

    /** Write(page, position): records `page` as data blocks bound for byte `position`. */
    method Write(page: seq<Byte>, position: nat) returns (err: Error)
      requires journal.dataCapacity > 0
      modifies this`dataBlockList
      ensures state != TxNew ==> err == InvalidState
      ensures state == TxNew && position < |page| ==> err == Overlap
      ensures (state == TxNew && position >= |page| &&
               HitsJournal(position, |page|, journal.start, journal.size, journal.blockSize)) ==> err == Overlap
      ensures err == Success <==>
                state == TxNew && position >= |page| && !HitsJournal(position, |page|, journal.start, journal.size, journal.blockSize)
      ensures err == Success ==>
                dataBlockList == old(dataBlockList) + SplitPage(txId, page, 0, position, journal.dataCapacity)
      ensures err != Success ==> dataBlockList == old(dataBlockList)
    {
      if state != TxNew {
        return InvalidState;
      }
      if position < |page| {
        return Overlap;
      }
      if Memory.CheckIntersection(position, position + |page|, journal.start * journal.blockSize,
                                  (journal.start + journal.size) * journal.blockSize) {
        assert HitsJournal(position, |page|, journal.start, journal.size, journal.blockSize);
        return Overlap;
      }
      var blockList := SplitIntoBlocks(txId, page, position, journal.dataCapacity);
      dataBlockList := dataBlockList + blockList;
      return Success;
    }

    /** Commit: moves a New transaction to Commiting and hands it to the commit thread; when the
        journal does not know it, it is Canceled instead. The wait for the outcome is not modelled. */
    method Commit() returns (err: Error)
      modifies this`state, journal`txList, journal`txTable
      ensures old(state) != TxNew ==> err == InvalidState && unchanged(this) && unchanged(journal)
      ensures old(state) == TxNew && Linked(old(journal.txTable), this) ==>
                && err == Success && state == TxCommiting
                && journal.txList == old(journal.txList) + [this] && journal.txTable == old(journal.txTable)
      ensures old(state) == TxNew && !Linked(old(journal.txTable), this) ==>
                && err == NotFound && state == TxCanceled
                && journal.txList == old(journal.txList) && journal.txTable == old(journal.txTable)
    {
      if state != TxNew {
        return InvalidState;
      }
      state := TxCommiting;
      err := journal.StartCommitTx(this);
      if err != Success {
        state := TxCanceled;
        journal.UnlinkTx(this);
        return err;
      }
    }

    /** Cancel: Canceled with result Cancelled, and out of the table. */
    method Cancel()
      modifies this`state, this`commitResult, journal`txTable
      ensures state == TxCanceled && commitResult == Cancelled
      ensures journal.txTable == Unlinked(old(journal.txTable), this)
    {
      state := TxCanceled;
      journal.UnlinkTx(this);
      commitResult := Cancelled;
    }

    /** The outcome of a commit: Commited on success; otherwise Canceled and out of the table. */
    method OnCommitCompleteLocked(result: Error)
      modifies this`state, this`commitResult, journal`txTable
      ensures commitResult == result
      ensures result == Success ==> state == TxCommited && journal.txTable == old(journal.txTable)
      ensures result != Success ==> state == TxCanceled && journal.txTable == Unlinked(old(journal.txTable), this)
    {
      if result != Success {
        state := TxCanceled;
        journal.UnlinkTx(this);
      } else {
        state := TxCommited;
      }
      commitResult := result;
    }

    /** WriteTx: queues the Begin block, the data blocks and the Commit block at successive
        indices from the allocator; any failure completes the transaction with that error. */
    method WriteTx(bioList: BioList) returns (err: Error)
      modifies this`state, this`commitResult, this`commitBlock, journal`currBlockIndex, journal`txTable, bioList
      ensures old(state) != TxCommiting ==>
                && err == InvalidState && state == TxCanceled && commitResult == InvalidState
                && journal.txTable == Unlinked(old(journal.txTable), this)
                && bioList.ios == old(bioList.ios) && journal.currBlockIndex == old(journal.currBlockIndex)
                && commitBlock == old(commitBlock)
      ensures old(state) == TxCommiting ==>
                var w := WriteBlocks(journal.start, journal.size, journal.blockHash, old(journal.currBlockIndex),
                                     [beginBlock] + dataBlockList + [MarkCommited(old(commitBlock))]);
                && err == w.1 && bioList.ios == old(bioList.ios) + w.0 && journal.currBlockIndex == w.2
                && (err == Success ==> state == TxCommiting && commitResult == old(commitResult)
                                       && journal.txTable == old(journal.txTable))
                && (err != Success ==> state == TxCanceled && commitResult == err
                                       && journal.txTable == Unlinked(old(journal.txTable), this))
      ensures old(state) == TxCommiting ==>
                commitBlock == if WriteBlocks(journal.start, journal.size, journal.blockHash, old(journal.currBlockIndex),
                                              [beginBlock] + dataBlockList).1 == Success
                               then MarkCommited(old(commitBlock)) else old(commitBlock)
    {
      if state != TxCommiting {
        err := InvalidState;
      } else {
        err := QueueBlocks(bioList);
      }
      if err != Success {
        OnCommitCompleteLocked(err);
      }
    }

    /** The writing part of WriteTx: Begin, each data block in list order, then Commit marked
        Commited, each at the next index from the allocator, stopping at the first failure. */
    method QueueBlocks(bioList: BioList) returns (err: Error)
      modifies this`commitBlock, journal`currBlockIndex, bioList
      ensures var w := WriteBlocks(journal.start, journal.size, journal.blockHash, old(journal.currBlockIndex),
                                   [beginBlock] + dataBlockList + [MarkCommited(old(commitBlock))]);
              err == w.1 && bioList.ios == old(bioList.ios) + w.0 && journal.currBlockIndex == w.2
      ensures commitBlock == if WriteBlocks(journal.start, journal.size, journal.blockHash, old(journal.currBlockIndex),
                                            [beginBlock] + dataBlockList).1 == Success
                             then MarkCommited(old(commitBlock)) else old(commitBlock)
    {
      ghost var start, size, hash, c0 := journal.start, journal.size, journal.blockHash, journal.currBlockIndex;
      ghost var base := bioList.ios;
      ghost var last := MarkCommited(commitBlock);
      err := QueueNext(beginBlock, bioList, base, [], c0);
      assert [] + [beginBlock] == [beginBlock];
      ghost var written := [beginBlock];
      var k := 0;
      while err == Success && k < |dataBlockList|
        invariant 0 <= k <= |dataBlockList| && written == [beginBlock] + dataBlockList[..k]
        invariant var w := WriteBlocks(start, size, hash, c0, written);
                  err == w.1 && bioList.ios == base + w.0 && journal.currBlockIndex == w.2
        modifies journal`currBlockIndex, bioList
      {
        err := QueueNext(dataBlockList[k], bioList, base, written, c0);
        PrefixGrows(beginBlock, dataBlockList, k);
        written := written + [dataBlockList[k]];
        k := k + 1;
      }
      PrefixSplits(beginBlock, dataBlockList, k);
      if err == Success {
        commitBlock := MarkCommited(commitBlock);
        err := QueueNext(commitBlock, bioList, base, written, c0);
      } else {
        WriteFailureIsFinal(start, size, hash, c0, written, dataBlockList[k..], last);
      }
    }

    /** One step of QueueBlocks: takes the next index from the allocator and writes `block`
        there, extending the writes of `written` by one block. */
    method QueueNext(block: TxBlock, bioList: BioList, ghost base: seq<QueuedIo>, ghost written: seq<TxBlock>,
                     ghost c0: nat) returns (err: Error)
      modifies journal`currBlockIndex, bioList
      requires var w := WriteBlocks(journal.start, journal.size, journal.blockHash, c0, written);
               w.1 == Success && bioList.ios == base + w.0 && journal.currBlockIndex == w.2
      ensures var w := WriteBlocks(journal.start, journal.size, journal.blockHash, c0, written + [block]);
              err == w.1 && bioList.ios == base + w.0 && journal.currBlockIndex == w.2
    {
      var index: nat;
      err, index := journal.GetNextBlockIndex();
      err := journal.WriteTxBlock(index, block, bioList);
      WriteBlocksSnoc(journal.start, journal.size, journal.blockHash, c0, written, block);
    }
  }
}
