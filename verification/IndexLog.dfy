/** The index journal: a double-buffered writer of checksummed blocks, and a reader that resumes
    where it stopped. One block write is atomic and succeeds. */
module IndexLog {
  import opened Bytes
  import opened Crc32
  import opened StoreModel

  const LOG_BUF_HEADER_SIZE: nat := 8
  const LOG_BUF_SIZE: nat := 8184
  const INDEX_LOG_ITEM_SIZE: nat := 44
  const ITEMS_PER_BLOCK: nat := 186

  /** MAGIC_HEADER in network byte order. */
  const MagicHeader: seq<byte> := [0x1d, 0x81, 0x09, 0x00]

  // ---------- the byte format ----------

  /** enum op_type_t. */
  function OpCode(op: OpType): nat {
    match op
    case IndexAppend => 1
    case IndexModify => 2
    case IndexDel => 3
  }

  /** An item as the reader hands it out, its type still a number. */
  datatype RawItem = RawItem(op: nat, key: Key, value: IndexValue)

  function Raw(item: LogItem): RawItem {
    RawItem(OpCode(item.op), item.key, item.value)
  }

  /** The record has the item's key and value, and the number 1, 2 or 3 that stands for an append, a
      modify or a delete. */
  ghost predicate Says(raw: RawItem, item: LogItem) {
    && raw.key == item.key && raw.value == item.value
    && (raw.op == 1 <==> item.op == IndexAppend)
    && (raw.op == 2 <==> item.op == IndexModify)
    && (raw.op == 3 <==> item.op == IndexDel)
  }

  lemma RawSays(item: LogItem)
    ensures Says(Raw(item), item)
  {
  }

  /** The first four bytes of a journal, as htonl puts them: 0x1d810900. */
  lemma MagicIs()
    ensures |MagicHeader| == 4
    ensures var a: int, b: int, c: int, d: int := MagicHeader[0], MagicHeader[1], MagicHeader[2], MagicHeader[3];
            0x100_0000 * a + 0x1_0000 * b + 0x100 * c + d == 0x1d81_0900
  {
  }

  /** The fields fit the integer types they are stored in. */
  predicate Encodable(item: LogItem) {
    && item.value.blockId < 0x1_0000_0000
    && item.value.dataSize < 0x1_0000_0000_0000_0000
    && item.value.offset < 0x1_0000_0000_0000_0000
  }

  function EncodeValue(v: IndexValue): (s: seq<byte>)
    ensures |s| == 24
  {
    Encode(v.crc32, 4) + Encode(v.blockId, 4) + Encode(v.dataSize, 8) + Encode(v.offset, 8)
  }

  function EncodeItem(item: LogItem): (s: seq<byte>)
    ensures |s| == INDEX_LOG_ITEM_SIZE
  {
    Encode(OpCode(item.op), 4) + item.key + EncodeValue(item.value)
  }

  function DecodeU32(s: seq<byte>): u32 {
    Decode(s) % 0x1_0000_0000
  }

  function DecodeValue(s: seq<byte>): IndexValue
    requires |s| == 24
  {
    IndexValue(DecodeU32(s[..4]), Decode(s[4..8]), Decode(s[8..16]), Decode(s[16..24]))
  }

  lemma FourParts(a: seq<byte>, b: seq<byte>, c: seq<byte>, d: seq<byte>)
    requires |a| == |b| == 4 && |c| == |d| == 8
    ensures var s := a + b + c + d; |s| == 24 && s[..4] == a && s[4..8] == b && s[8..16] == c && s[16..24] == d
  {
    var front := a + b + c;
    assert (front + d)[16..24] == d;
    assert front[..4] == a && front[4..8] == b && front[8..16] == c;
  }

  lemma ValueRoundTrip(v: IndexValue)
    requires v.blockId < 0x1_0000_0000 && v.dataSize < 0x1_0000_0000_0000_0000 && v.offset < 0x1_0000_0000_0000_0000
    ensures DecodeValue(EncodeValue(v)) == v
  {
    hide Encode, Decode;
    Ranges();
    FourParts(Encode(v.crc32, 4), Encode(v.blockId, 4), Encode(v.dataSize, 8), Encode(v.offset, 8));
    DecodeEncode(v.crc32, 4);
    DecodeEncode(v.blockId, 4);
    DecodeEncode(v.dataSize, 8);
    DecodeEncode(v.offset, 8);
  }

  function EncodeItems(items: seq<LogItem>): (s: seq<byte>)
    ensures |s| == INDEX_LOG_ITEM_SIZE * |items|
    decreases |items|
  {
    if items == [] then [] else EncodeItems(items[..|items| - 1]) + EncodeItem(items[|items| - 1])
  }

  lemma {:induction false} ItemAt(items: seq<LogItem>, i: nat)
    requires i < |items|
    ensures EncodeItems(items)[INDEX_LOG_ITEM_SIZE * i..INDEX_LOG_ITEM_SIZE * (i + 1)] == EncodeItem(items[i])
    decreases |items|
  {
    hide EncodeItem;
    var n := |items| - 1;
    var front := EncodeItems(items[..n]);
    if i < n {
      ItemAt(items[..n], i);
      assert EncodeItems(items)[INDEX_LOG_ITEM_SIZE * i..INDEX_LOG_ITEM_SIZE * (i + 1)] == front[INDEX_LOG_ITEM_SIZE * i..INDEX_LOG_ITEM_SIZE * (i + 1)];
    }
  }

  /** struct buf_s as written: checksum, count, items. */
  function EncodeBlock(items: seq<LogItem>): (s: seq<byte>)
    ensures |s| == LOG_BUF_HEADER_SIZE + INDEX_LOG_ITEM_SIZE * |items|
  {
    Encode(Checksum(EncodeItems(items)), 4) + Encode(|items|, 4) + EncodeItems(items)
  }

  function EncodeBlocks(blocks: seq<seq<LogItem>>): seq<byte>
    decreases |blocks|
  {
    if blocks == [] then [] else EncodeBlocks(blocks[..|blocks| - 1]) + EncodeBlock(blocks[|blocks| - 1])
  }

  function FileBytes(blocks: seq<seq<LogItem>>): seq<byte> {
    MagicHeader + EncodeBlocks(blocks)
  }

  function Flat(blocks: seq<seq<LogItem>>): seq<LogItem>
    decreases |blocks|
  {
    if blocks == [] then [] else Flat(blocks[..|blocks| - 1]) + blocks[|blocks| - 1]
  }

  // ---------- the writer as a function ----------

  /** What has reached the file, block by block, and what waits in the working buffer. */
  datatype Journal = Journal(blocks: seq<seq<LogItem>>, pending: seq<LogItem>)

  function Items(j: Journal): seq<LogItem> {
    Flat(j.blocks) + j.pending
  }

  function FlushTo(j: Journal): Journal {
    if j.pending == [] then j else Journal(j.blocks + [j.pending], [])
  }

  function AppendTo(j: Journal, item: LogItem): Journal {
    var j1 := if |j.pending| == ITEMS_PER_BLOCK then FlushTo(j) else j;
    j1.(pending := j1.pending + [item])
  }

  ghost predicate BlocksOk(blocks: seq<seq<LogItem>>) {
    forall b :: 0 <= b < |blocks| ==> 1 <= |blocks[b]| <= ITEMS_PER_BLOCK && forall i :: 0 <= i < |blocks[b]| ==> Encodable(blocks[b][i])
  }

  ghost predicate JournalOk(j: Journal) {
    && BlocksOk(j.blocks)
    && |j.pending| <= ITEMS_PER_BLOCK
    && forall i :: 0 <= i < |j.pending| ==> Encodable(j.pending[i])
  }

  lemma FlatAppend(blocks: seq<seq<LogItem>>, block: seq<LogItem>)
    ensures Flat(blocks + [block]) == Flat(blocks) + block
  {
    assert (blocks + [block])[..|blocks|] == blocks;
  }

  /** On disk plus in the working buffer is everything appended, in order; no block is empty or
      overfull. */
  lemma WriterKeeps(j: Journal, item: LogItem)
    requires JournalOk(j) && Encodable(item)
    ensures JournalOk(AppendTo(j, item)) && Items(AppendTo(j, item)) == Items(j) + [item]
    ensures JournalOk(FlushTo(j)) && Items(FlushTo(j)) == Items(j) && FlushTo(j).pending == []
    ensures j.blocks <= AppendTo(j, item).blocks && j.blocks <= FlushTo(j).blocks
  {
    hide Flat, Encodable;
    FlatAppend(j.blocks, j.pending);
  }

  // ---------- the reader as a function ----------

  /** The file position of the descriptor and the reader's own fields. */
  datatype Reader = Reader(pos: nat, fetchPos: nat, amount: int, fetchId: int)

  const Opened := Reader(0, 0, -1, -1)

  /** read(2): what is there, up to `n` bytes, and the position after it. */
  function Read(file: seq<byte>, pos: nat, n: nat): (r: (seq<byte>, nat))
    ensures |r.0| <= n
  {
    if pos >= |file| then ([], pos)
    else if pos + n <= |file| then (file[pos..pos + n], pos + n)
    else (file[pos..], |file|)
  }

  /** The checks that open a file and a block; None when index_logger_fetch gives up there. */
  function StartFetch(file: seq<byte>, r: Reader): (Reader, bool) {
    var (magic, p1) := if r.fetchPos == 0 then Read(file, r.pos, 4) else (MagicHeader, r.pos);
    if magic != MagicHeader then (r.(pos := p1), false)
    else if r.fetchId != -1 then (r.(pos := p1), true)
    else
      var (crc, p2) := Read(file, p1, 4);
      if |crc| != 4 then (r.(pos := p2), false)
      else
        var (count, p3) := Read(file, p2, 4);
        if |count| != 4 then (r.(pos := p3), false)
        else (r.(pos := p3, amount := Decode(count), fetchId := 0), true)
  }

  /** Type, key and value, each its own read. */
  function FetchItem(file: seq<byte>, r: Reader): (Reader, Option<RawItem>) {
    var (op, p1) := Read(file, r.pos, 4);
    if |op| != 4 then (r.(pos := p1), None)
    else
      var (key, p2) := Read(file, p1, KEY_LEN);
      if |key| != KEY_LEN then (r.(pos := p2), None)
      else
        var (value, p3) := Read(file, p2, 24);
        if |value| != 24 then (r.(pos := p3), None)
        else
          var id := if r.fetchId + 1 == r.amount then -1 else r.fetchId + 1;
          (r.(pos := p3, fetchId := id), Some(RawItem(Decode(op), key, DecodeValue(value))))
  }

  /** index_logger_fetch. */
  function FetchStep(file: seq<byte>, r: Reader): (Reader, Option<RawItem>) {
    var (r1, go) := StartFetch(file, r);
    var (r2, item) := if go then FetchItem(file, r1) else (r1, None);
    (r2.(fetchPos := r2.pos), item)
  }

  /** Where block `b` begins in the file. */
  function BlockPos(blocks: seq<seq<LogItem>>, b: nat): nat
    requires b <= |blocks|
  {
    |FileBytes(blocks[..b])|
  }

  /** The reader stands before item `i` of block `b`; between blocks `i` is 0. */
  ghost predicate At(r: Reader, blocks: seq<seq<LogItem>>, b: nat, i: nat) {
    && b <= |blocks|
    && if i == 0
       then r.fetchId == -1 && ((b == 0 && r.pos == 0 && r.fetchPos == 0) || (r.fetchPos == r.pos == BlockPos(blocks, b)))
       else && b < |blocks| && i < |blocks[b]|
            && r.fetchId == i && r.amount == |blocks[b]|
            && r.fetchPos == r.pos == BlockPos(blocks, b) + LOG_BUF_HEADER_SIZE + INDEX_LOG_ITEM_SIZE * i
  }

  function Consumed(blocks: seq<seq<LogItem>>, b: nat, i: nat): nat
    requires b <= |blocks|
  {
    |Flat(blocks[..b])| + i
  }

  /** The file as the part before block `b`, the block, and the rest. */
  lemma {:induction false} SplitBlocks(blocks: seq<seq<LogItem>>, b: nat)
    requires b < |blocks|
    ensures exists tail :: FileBytes(blocks) == FileBytes(blocks[..b]) + EncodeBlock(blocks[b]) + tail
    ensures BlockPos(blocks, b + 1) == BlockPos(blocks, b) + LOG_BUF_HEADER_SIZE + INDEX_LOG_ITEM_SIZE * |blocks[b]|
    decreases |blocks|
  {
    hide EncodeBlock;
    var n := |blocks| - 1;
    assert blocks[..b + 1][..b] == blocks[..b];
    if b == n {
      assert blocks[..n + 1] == blocks;
      assert FileBytes(blocks) == FileBytes(blocks[..b]) + EncodeBlock(blocks[b]) + [];
    } else {
      SplitBlocks(blocks[..n], b);
      assert blocks[..n][..b] == blocks[..b];
      var tail :| FileBytes(blocks[..n]) == FileBytes(blocks[..b]) + EncodeBlock(blocks[b]) + tail;
      assert FileBytes(blocks) == FileBytes(blocks[..n]) + EncodeBlock(blocks[n]);
      assert FileBytes(blocks) == FileBytes(blocks[..b]) + EncodeBlock(blocks[b]) + (tail + EncodeBlock(blocks[n]));
    }
  }

  /** Bytes `from .. to` of block `b`, read from the file. */
  lemma BlockBytes(blocks: seq<seq<LogItem>>, b: nat, from: nat, to: nat)
    requires b < |blocks| && from <= to <= |EncodeBlock(blocks[b])|
    ensures BlockPos(blocks, b) + to <= |FileBytes(blocks)|
    ensures FileBytes(blocks)[BlockPos(blocks, b) + from..BlockPos(blocks, b) + to] == EncodeBlock(blocks[b])[from..to]
  {
    hide EncodeBlock, FileBytes;
    SplitBlocks(blocks, b);
    var tail :| FileBytes(blocks) == FileBytes(blocks[..b]) + EncodeBlock(blocks[b]) + tail;
  }

  /** Every block in the file: its checksum, which is that of its items' bytes, its count, between 1
      and 186, and 44 bytes for each item. */
  lemma BlockOnDisk(blocks: seq<seq<LogItem>>, b: nat)
    requires BlocksOk(blocks) && b < |blocks|
    ensures var file := FileBytes(blocks); var at := BlockPos(blocks, b); var n := |blocks[b]|;
            && 1 <= n <= 186 && at + 8 + 44 * n <= |file|
            && Decode(file[at + 4..at + 8]) == n
            && Decode(file[at..at + 4]) == Checksum(file[at + 8..at + 8 + 44 * n])
            && BlockPos(blocks, b + 1) == at + 8 + 44 * n
  {
    hide Encode, Decode, EncodeItems, Checksum, FileBytes, BlockPos;
    var items := blocks[b];
    var n := |items|;
    var s := EncodeBlock(items);
    Ranges();
    BlockBytes(blocks, b, 0, 4);
    BlockBytes(blocks, b, 4, 8);
    BlockBytes(blocks, b, 8, 8 + 44 * n);
    SplitBlocks(blocks, b);
    assert s[0..4] == Encode(Checksum(EncodeItems(items)), 4) && s[4..8] == Encode(n, 4) && s[8..8 + 44 * n] == EncodeItems(items);
    DecodeEncode(Checksum(EncodeItems(items)), 4);
    DecodeEncode(n, 4);
  }

  lemma BlockParts(items: seq<LogItem>, i: nat)
    requires 1 <= |items| <= ITEMS_PER_BLOCK && i < |items| && Encodable(items[i])
    ensures var s := EncodeBlock(items);
            var at := LOG_BUF_HEADER_SIZE + INDEX_LOG_ITEM_SIZE * i;
            && Decode(s[4..8]) == |items|
            && Decode(s[at..at + 4]) == OpCode(items[i].op)
            && s[at + 4..at + 20] == items[i].key
            && DecodeValue(s[at + 20..at + 44]) == items[i].value
  {
    hide Encode, Decode, EncodeValue, EncodeItems, DecodeValue, Checksum;
    Ranges();
    var s := EncodeBlock(items);
    var at := LOG_BUF_HEADER_SIZE + INDEX_LOG_ITEM_SIZE * i;
    assert s[4..8] == Encode(|items|, 4);
    DecodeEncode(|items|, 4);
    ItemAt(items, i);
    var e := EncodeItem(items[i]);
    assert s[at..at + 44] == EncodeItems(items)[INDEX_LOG_ITEM_SIZE * i..INDEX_LOG_ITEM_SIZE * (i + 1)] == e;
    assert s[at..at + 4] == s[at..at + 44][..4] == e[..4] == Encode(OpCode(items[i].op), 4);
    assert s[at + 4..at + 20] == s[at..at + 44][4..20] == e[4..20] == items[i].key;
    assert s[at + 20..at + 44] == s[at..at + 44][20..44] == e[20..44] == EncodeValue(items[i].value);
    DecodeEncode(OpCode(items[i].op), 4);
    ValueRoundTrip(items[i].value);
  }

  /** At the end of what has been written a fetch returns nothing and the reader stays put. */
  lemma FetchAtEnd(blocks: seq<seq<LogItem>>, r: Reader)
    requires At(r, blocks, |blocks|, 0)
    ensures var (r', item) := FetchStep(FileBytes(blocks), r);
            item == None && At(r', blocks, |blocks|, 0)
  {
    hide EncodeBlocks;
    assert blocks[..|blocks|] == blocks;
    EmptyBlocks();
    assert FileBytes(blocks)[0..4] == MagicHeader;
  }

  /** A file that does not begin with the magic number gives nothing to a reader that opens it. */
  lemma WrongMagic(file: seq<byte>)
    requires |file| < 4 || file[..4] != MagicHeader
    ensures FetchStep(file, Opened).1 == None
  {
    hide Decode, DecodeValue;
  }

  function NextBlock(blocks: seq<seq<LogItem>>, b: nat, i: nat): nat
    requires b < |blocks|
  {
    if i + 1 == |blocks[b]| then b + 1 else b
  }

  function NextItem(blocks: seq<seq<LogItem>>, b: nat, i: nat): nat
    requires b < |blocks|
  {
    if i + 1 == |blocks[b]| then 0 else i + 1
  }

  lemma StartInBlock(blocks: seq<seq<LogItem>>, r: Reader, b: nat, i: nat)
    requires BlocksOk(blocks) && At(r, blocks, b, i) && b < |blocks| && i < |blocks[b]|
    ensures var (r', go) := StartFetch(FileBytes(blocks), r);
            && go && r'.fetchId == i && r'.amount == |blocks[b]|
            && r'.pos == BlockPos(blocks, b) + LOG_BUF_HEADER_SIZE + INDEX_LOG_ITEM_SIZE * i
  {
    hide EncodeBlocks, EncodeBlock, Decode;
    if i == 0 {
      BlockBytes(blocks, b, 0, 4);
      BlockBytes(blocks, b, 4, 8);
      BlockParts(blocks[b], 0);
      assert FileBytes(blocks)[0..4] == MagicHeader;
      if b == 0 { assert EncodeBlocks([]) == [] by { EmptyBlocks(); } }
    }
  }

  lemma EmptyBlocks()
    ensures EncodeBlocks([]) == []
  {
  }

  lemma ItemInBlock(blocks: seq<seq<LogItem>>, r: Reader, b: nat, i: nat)
    requires BlocksOk(blocks) && b < |blocks| && i < |blocks[b]|
    requires r.fetchId == i && r.amount == |blocks[b]|
    requires r.pos == BlockPos(blocks, b) + LOG_BUF_HEADER_SIZE + INDEX_LOG_ITEM_SIZE * i
    ensures var (r', item) := FetchItem(FileBytes(blocks), r);
            && item == Some(Raw(blocks[b][i]))
            && r'.pos == r.pos + INDEX_LOG_ITEM_SIZE
            && r'.fetchId == (if i + 1 == |blocks[b]| then -1 else i + 1) && r'.amount == r.amount
  {
    hide FileBytes, EncodeBlock, Decode, DecodeValue, EncodeBlocks;
    var at := LOG_BUF_HEADER_SIZE + INDEX_LOG_ITEM_SIZE * i;
    BlockParts(blocks[b], i);
    BlockBytes(blocks, b, at, at + 4);
    BlockBytes(blocks, b, at + 4, at + 20);
    BlockBytes(blocks, b, at + 20, at + 44);
  }

  /** With something left to read a fetch returns exactly the next item. */
  lemma FetchNext(blocks: seq<seq<LogItem>>, r: Reader, b: nat, i: nat)
    requires BlocksOk(blocks) && At(r, blocks, b, i) && b < |blocks|
    ensures var (r', item) := FetchStep(FileBytes(blocks), r);
            && item == Some(Raw(blocks[b][i])) && Says(item.value, blocks[b][i])
            && At(r', blocks, NextBlock(blocks, b, i), NextItem(blocks, b, i))
  {
    hide EncodeBlock, EncodeBlocks, FileBytes, StartFetch, FetchItem;
    StartInBlock(blocks, r, b, i);
    ItemInBlock(blocks, StartFetch(FileBytes(blocks), r).0, b, i);
    SplitBlocks(blocks, b);
    RawSays(blocks[b][i]);
  }

  lemma {:induction false} FlatAt(blocks: seq<seq<LogItem>>, b: nat, i: nat)
    requires b < |blocks| && i < |blocks[b]|
    ensures Consumed(blocks, b, i) < |Flat(blocks)| && Flat(blocks)[Consumed(blocks, b, i)] == blocks[b][i]
    ensures |Flat(blocks[..b + 1])| == |Flat(blocks[..b])| + |blocks[b]|
    decreases |blocks|
  {
    var n := |blocks| - 1;
    assert blocks[..b + 1][..b] == blocks[..b];
    if b < n {
      FlatAt(blocks[..n], b, i);
      assert blocks[..n][..b] == blocks[..b];
    }
  }

  /** Blocks written later do not move the reader. */
  lemma LaterBlocks(r: Reader, blocks: seq<seq<LogItem>>, more: seq<seq<LogItem>>, b: nat, i: nat)
    requires At(r, blocks, b, i) && blocks <= more
    ensures b <= |blocks| && At(r, more, b, i) && Consumed(more, b, i) == Consumed(blocks, b, i)
  {
    assert more[..b] == blocks[..b];
  }

  // ---------- writer and reader together ----------

  datatype Event = DoAppend(item: LogItem) | DoFlush | DoFetch

  /** The journal, its reader, and what the reader has returned so far. */
  datatype System = System(journal: Journal, reader: Reader, fetched: seq<Option<RawItem>>)

  function SystemStep(s: System, e: Event): System {
    match e
    case DoAppend(item) => s.(journal := AppendTo(s.journal, item))
    case DoFlush => s.(journal := FlushTo(s.journal))
    case DoFetch =>
      var (r, item) := FetchStep(FileBytes(s.journal.blocks), s.reader);
      s.(reader := r, fetched := s.fetched + [item])
  }

  function SystemRun(s: System, events: seq<Event>): System
    decreases |events|
  {
    if events == [] then s else SystemStep(SystemRun(s, events[..|events| - 1]), events[|events| - 1])
  }

  /** The items among the results, the NULLs left out. */
  function Somes(results: seq<Option<RawItem>>): seq<RawItem>
    decreases |results|
  {
    if results == [] then []
    else
      var rest := Somes(results[..|results| - 1]);
      match results[|results| - 1]
      case Some(item) => rest + [item]
      case None => rest
  }

  function Raws(items: seq<LogItem>): (r: seq<RawItem>)
    ensures |r| == |items| && forall i :: 0 <= i < |items| ==> r[i] == Raw(items[i])
  {
    seq(|items|, i requires 0 <= i < |items| => Raw(items[i]))
  }

  /** The reader is some items into the flushed ones and has returned exactly those. */
  ghost predicate InStep(s: System, b: nat, i: nat) {
    && JournalOk(s.journal)
    && At(s.reader, s.journal.blocks, b, i)
    && Consumed(s.journal.blocks, b, i) <= |Flat(s.journal.blocks)|
    && Somes(s.fetched) == Raws(Flat(s.journal.blocks)[..Consumed(s.journal.blocks, b, i)])
  }

  ghost predicate SystemOk(s: System) {
    exists b, i :: InStep(s, b, i)
  }

  lemma {:induction false} FlatGrows(blocks: seq<seq<LogItem>>, more: seq<seq<LogItem>>)
    requires blocks <= more
    ensures Flat(blocks) <= Flat(more)
    decreases |more|
  {
    if |blocks| < |more| {
      FlatGrows(blocks, more[..|more| - 1]);
    } else {
      assert blocks == more;
    }
  }

  lemma SomesAppend(results: seq<Option<RawItem>>, x: Option<RawItem>)
    ensures Somes(results + [x]) == if x.Some? then Somes(results) + [x.value] else Somes(results)
  {
    assert (results + [x])[..|results|] == results;
  }

  lemma WriterStepOk(s: System, s': System, b: nat, i: nat)
    requires InStep(s, b, i) && s'.reader == s.reader && s'.fetched == s.fetched
    requires JournalOk(s'.journal) && s.journal.blocks <= s'.journal.blocks
    ensures InStep(s', b, i)
  {
    hide At, Flat, JournalOk;
    LaterBlocks(s.reader, s.journal.blocks, s'.journal.blocks, b, i);
    FlatGrows(s.journal.blocks, s'.journal.blocks);
    var n := Consumed(s.journal.blocks, b, i);
    assert Flat(s'.journal.blocks)[..n] == Flat(s.journal.blocks)[..n];
  }

  /** A fetch in any reachable state returns the next flushed item, or NULL exactly when all
      flushed items have been returned. */
  lemma FetchOk(s: System, b: nat, i: nat)
    requires InStep(s, b, i)
    ensures SystemOk(SystemStep(s, DoFetch))
    ensures var item := FetchStep(FileBytes(s.journal.blocks), s.reader).1;
            var n := |Somes(s.fetched)|;
            if n < |Flat(s.journal.blocks)| then item.Some? && Says(item.value, Flat(s.journal.blocks)[n]) else item == None
  {
    hide FetchStep, FileBytes, At, Flat, Raws, Somes, SystemStep, BlocksOk, Says;
    var blocks := s.journal.blocks;
    AtBounds(s.reader, blocks, b, i);
    if b < |blocks| {
      FetchInBlock(s, b, i);
      assert InStep(SystemStep(s, DoFetch), NextBlock(blocks, b, i), NextItem(blocks, b, i));
    } else {
      FetchAfterBlocks(s, b);
      assert InStep(SystemStep(s, DoFetch), b, i);
    }
  }

  lemma FetchInBlock(s: System, b: nat, i: nat)
    requires InStep(s, b, i) && b < |s.journal.blocks|
    ensures var blocks := s.journal.blocks; var n := |Somes(s.fetched)|;
            && n < |Flat(blocks)| && FetchStep(FileBytes(blocks), s.reader).1 == Some(Raw(Flat(blocks)[n]))
            && Says(Raw(Flat(blocks)[n]), Flat(blocks)[n])
            && InStep(SystemStep(s, DoFetch), NextBlock(blocks, b, i), NextItem(blocks, b, i))
  {
    hide FetchStep, FileBytes, At, Flat, Encodable;
    var blocks := s.journal.blocks;
    AtBounds(s.reader, blocks, b, i);
    var n := Consumed(blocks, b, i);
    FetchNext(blocks, s.reader, b, i);
    FlatAt(blocks, b, i);
    SomesAppend(s.fetched, Some(Raw(blocks[b][i])));
    assert Raws(Flat(blocks)[..n + 1]) == Raws(Flat(blocks)[..n]) + [Raw(Flat(blocks)[n])];
    RawSays(Flat(blocks)[n]);
  }

  lemma FetchAfterBlocks(s: System, b: nat)
    requires InStep(s, b, 0) && b == |s.journal.blocks|
    ensures var blocks := s.journal.blocks;
            && |Somes(s.fetched)| == |Flat(blocks)| && FetchStep(FileBytes(blocks), s.reader).1 == None
            && InStep(SystemStep(s, DoFetch), b, 0)
  {
    hide FetchStep, FileBytes, At, Flat, JournalOk;
    var blocks := s.journal.blocks;
    FetchAtEnd(blocks, s.reader);
    SomesAppend(s.fetched, None);
    assert blocks[..|blocks|] == blocks;
  }

  lemma AtBounds(r: Reader, blocks: seq<seq<LogItem>>, b: nat, i: nat)
    requires BlocksOk(blocks) && At(r, blocks, b, i)
    ensures b <= |blocks| && (b == |blocks| ==> i == 0)
    ensures b < |blocks| ==> i < |blocks[b]|
  {
  }

  ghost predicate EventOk(e: Event) {
    e.DoAppend? ==> Encodable(e.item)
  }

  lemma SystemStepOk(s: System, e: Event)
    requires SystemOk(s) && EventOk(e)
    ensures SystemOk(SystemStep(s, e))
  {
    hide InStep, JournalOk, AppendTo, FlushTo, FetchStep;
    var b, i :| InStep(s, b, i);
    StepJournalOk(s, b, i);
    match e {
      case DoAppend(item) =>
        WriterKeeps(s.journal, item);
        WriterStepOk(s, SystemStep(s, e), b, i);
      case DoFlush =>
        WriterKeepsFlush(s.journal);
        WriterStepOk(s, SystemStep(s, e), b, i);
      case DoFetch =>
        FetchOk(s, b, i);
    }
  }

  lemma StepJournalOk(s: System, b: nat, i: nat)
    requires InStep(s, b, i)
    ensures JournalOk(s.journal)
  {
  }

  lemma WriterKeepsFlush(j: Journal)
    requires JournalOk(j)
    ensures JournalOk(FlushTo(j)) && Items(FlushTo(j)) == Items(j) && FlushTo(j).pending == [] && j.blocks <= FlushTo(j).blocks
  {
    hide Flat, Encodable;
    FlatAppend(j.blocks, j.pending);
  }

  function StartSystem(): System {
    System(Journal([], []), Opened, [])
  }

  function Appended(events: seq<Event>): seq<LogItem>
    decreases |events|
  {
    if events == [] then []
    else
      var rest := Appended(events[..|events| - 1]);
      match events[|events| - 1]
      case DoAppend(item) => rest + [item]
      case _ => rest
  }

  /** The records say, one by one, what the first items are. */
  ghost predicate SayAll(raws: seq<RawItem>, items: seq<LogItem>) {
    |raws| <= |items| && forall k :: 0 <= k < |raws| ==> Says(raws[k], items[k])
  }

  /** For every interleaving of appends, flushes and fetches: nothing appended is lost or
      reordered, and the reader has returned a prefix of what was flushed, item for item. */
  lemma {:induction false} EveryInterleaving(events: seq<Event>)
    requires forall k :: 0 <= k < |events| ==> EventOk(events[k])
    ensures var s := SystemRun(StartSystem(), events);
            && SystemOk(s)
            && Items(s.journal) == Appended(events)
            && Somes(s.fetched) <= Raws(Flat(s.journal.blocks))
            && SayAll(Somes(s.fetched), Appended(events))
    decreases |events|
  {
    hide FetchStep, InStep, JournalOk, Encodable, Flat, SayAll;
    var s := SystemRun(StartSystem(), events);
    if events == [] {
      StartInStep();
    } else {
      var n := |events| - 1;
      EveryInterleaving(events[..n]);
      var s0 := SystemRun(StartSystem(), events[..n]);
      SystemStepOk(s0, events[n]);
      var b, i :| InStep(s0, b, i);
      StepJournalOk(s0, b, i);
      if events[n].DoAppend? {
        WriterKeeps(s0.journal, events[n].item);
      } else {
        WriterKeepsFlush(s0.journal);
      }
    }
    var b, i :| InStep(s, b, i);
    FetchedIsPrefix(s, b, i);
    PrefixSays(Somes(s.fetched), Flat(s.journal.blocks), s.journal.pending);
  }

  lemma PrefixSays(raws: seq<RawItem>, flushed: seq<LogItem>, pending: seq<LogItem>)
    requires raws <= Raws(flushed)
    ensures SayAll(raws, flushed + pending)
  {
    forall k | 0 <= k < |raws|
      ensures Says(raws[k], (flushed + pending)[k])
    {
      RawSays(flushed[k]);
      assert raws[k] == Raws(flushed)[k];
    }
  }

  lemma StartInStep()
    ensures InStep(StartSystem(), 0, 0) && Items(StartSystem().journal) == []
  {
  }

  lemma FetchedIsPrefix(s: System, b: nat, i: nat)
    requires InStep(s, b, i)
    ensures Somes(s.fetched) <= Raws(Flat(s.journal.blocks))
  {
    hide At, JournalOk, Flat;
  }

  // ---------- the objects ----------

  /** struct buf_s. */
  class Buffer {
    var crc32sum: u32
    var count: nat
    const bufPtr: array<byte>

    constructor ()
      ensures bufPtr.Length == LOG_BUF_SIZE && fresh(bufPtr) && count == 0
    {
      crc32sum, count := 0, 0;
      bufPtr := new byte[LOG_BUF_SIZE](_ => 0);
    }

    /** memcpy of `data` into the buffer at `at`. */
    method Copy(data: seq<byte>, at: nat)
      requires at + |data| <= bufPtr.Length
      modifies bufPtr
      ensures bufPtr[..at] == old(bufPtr[..at]) && bufPtr[at..at + |data|] == data
    {
      var i := 0;
      while i < |data|
        invariant 0 <= i <= |data|
        invariant bufPtr[..at] == old(bufPtr[..at]) && bufPtr[at..at + i] == data[..i]
      {
        bufPtr[at + i] := data[i];
        i := i + 1;
      }
    }
  }

  /** struct index_logger_s of a journal that is being written. */
  class IndexLogger {
    const buffer1: Buffer
    const buffer2: Buffer
    var working: Buffer
    var storing: Buffer
    var currWorkingBuf: int
    var file: seq<byte>
    ghost var journal: Journal

    ghost const parts: set<object> := {buffer1, buffer2, buffer1.bufPtr, buffer2.bufPtr}

    /** The two buffers are different, and each pointer holds the one the other does not. */
    ghost predicate Buffers()
      reads this
    {
      && buffer1 != buffer2 && buffer1.bufPtr != buffer2.bufPtr
      && buffer1.bufPtr.Length == buffer2.bufPtr.Length == LOG_BUF_SIZE
      && (currWorkingBuf == 1 || currWorkingBuf == 2)
      && working == (if currWorkingBuf == 1 then buffer1 else buffer2)
      && storing == (if currWorkingBuf == 1 then buffer2 else buffer1)
    }

    ghost predicate Valid()
      reads this, parts
    {
      && Buffers()
      && JournalOk(journal)
      && file == FileBytes(journal.blocks)
      && working.count == |journal.pending|
      && working.bufPtr[..INDEX_LOG_ITEM_SIZE * working.count] == EncodeItems(journal.pending)
    }

    /** index_logger_create. */
    constructor ()
      ensures Valid() && fresh(parts) && journal == Journal([], [])
    {
      hide EncodeBlocks, EncodeItems, Encodable;
      buffer1 := new Buffer();
      buffer2 := new Buffer();
      working, storing, currWorkingBuf := buffer1, buffer2, 1;
      file := MagicHeader;
      journal := Journal([], []);
      new;
      EmptyBlocks();
      NoItems();
    }

    /** switch_buffer. */
    method SwitchBuffer()
      requires Buffers()
      modifies this`working, this`storing, this`currWorkingBuf, buffer1`count, buffer1`crc32sum, buffer2`count, buffer2`crc32sum
      ensures Buffers() && working == old(storing) && storing == old(working)
      ensures working.count == 0 && storing.count == old(working.count)
    {
      if currWorkingBuf == 1 {
        working, storing, currWorkingBuf := buffer2, buffer1, 2;
      } else {
        working, storing, currWorkingBuf := buffer1, buffer2, 1;
      }
      working.crc32sum := 0;
      working.count := 0;
    }

    /** sync_index_log: the storing buffer goes to the end of the file in one write. */
    method SyncIndexLog()
      requires Buffers() && INDEX_LOG_ITEM_SIZE * storing.count <= LOG_BUF_SIZE
      modifies storing`crc32sum, this`file
      ensures var items := storing.bufPtr[..INDEX_LOG_ITEM_SIZE * storing.count];
              file == old(file) + Encode(Checksum(items), 4) + Encode(storing.count, 4) + items
    {
      var items := storing.bufPtr[..INDEX_LOG_ITEM_SIZE * storing.count];
      storing.crc32sum := Checksum(items);
      file := file + Encode(storing.crc32sum, 4) + Encode(storing.count, 4) + items;
    }

    /** What append and flush do with a non-empty working buffer. */
    method StoreWorking()
      requires Valid() && journal.pending != []
      modifies this, parts
      ensures Valid() && journal == FlushTo(old(journal))
    {
      hide EncodeItems, Checksum, Encode, EncodeBlocks, Flat, Encodable;
      ghost var j := journal;
      SwitchBuffer();
      SyncIndexLog();
      journal := FlushTo(j);
      FileGrows(j);
      WriterKeepsFlush(j);
      NoItems();
    }

    /** index_logger_append. */
    method Append(item: LogItem)
      requires Valid() && Encodable(item)
      modifies this, parts
      ensures Valid() && journal == AppendTo(old(journal), item)
    {
      hide EncodeItems, Checksum, Encode, EncodeItem, FileBytes;
      if LOG_BUF_SIZE < (working.count + 1) * INDEX_LOG_ITEM_SIZE {
        StoreWorking();
      }
      ghost var j := journal;
      var at := INDEX_LOG_ITEM_SIZE * working.count;
      working.Copy(EncodeItem(item), at);
      working.count := working.count + 1;
      journal := j.(pending := j.pending + [item]);
      ItemsAppend(j.pending, item);
      assert working.bufPtr[..at + INDEX_LOG_ITEM_SIZE] == working.bufPtr[..at] + working.bufPtr[at..at + INDEX_LOG_ITEM_SIZE];
    }

    /** index_logger_flush. */
    method Flush()
      requires Valid()
      modifies this, parts
      ensures Valid() && journal == FlushTo(old(journal))
    {
      if working.count == 0 {
        return;
      }
      StoreWorking();
    }
  }

  lemma FileGrows(j: Journal)
    requires j.pending != []
    ensures FileBytes(FlushTo(j).blocks) == FileBytes(j.blocks) + Encode(Checksum(EncodeItems(j.pending)), 4) + Encode(|j.pending|, 4) + EncodeItems(j.pending)
  {
    hide Encode, Checksum, EncodeItems;
    assert (j.blocks + [j.pending])[..|j.blocks|] == j.blocks;
  }

  lemma NoItems()
    ensures EncodeItems([]) == []
  {
  }

  lemma ItemsAppend(items: seq<LogItem>, item: LogItem)
    ensures EncodeItems(items + [item]) == EncodeItems(items) + EncodeItem(item)
  {
    assert (items + [item])[..|items|] == items;
  }

  /** struct index_logger_s of a journal that is being read. */
  class LogReader {
    var pos: nat
    var fetchPos: nat
    var fetchRecordsAmount: int
    var fetchId: int

    ghost function Model(): Reader
      reads this
    {
      Reader(pos, fetchPos, fetchRecordsAmount, fetchId)
    }

    /** index_logger_open. */
    constructor ()
      ensures Model() == Opened
    {
      pos, fetchPos, fetchRecordsAmount, fetchId := 0, 0, -1, -1;
    }

    /** read(2) on the descriptor. */
    method ReadBytes(file: seq<byte>, n: nat) returns (bytes: seq<byte>)
      modifies this`pos
      ensures (bytes, pos) == Read(file, old(pos), n)
    {
      bytes, pos := Read(file, pos, n).0, Read(file, pos, n).1;
    }

    /** index_logger_fetch. */
    method Fetch(file: seq<byte>) returns (item: Option<RawItem>)
      modifies this
      ensures (Model(), item) == FetchStep(file, old(Model()))
    {
      hide Read, Decode, DecodeValue;
      item := TryFetch(file);
      fetchPos := pos;
    }

    /** index_logger_fetch up to its label `done`. */
    method TryFetch(file: seq<byte>) returns (item: Option<RawItem>)
      modifies this`pos, this`fetchRecordsAmount, this`fetchId
      ensures var (r1, go) := StartFetch(file, old(Model()));
              (Model(), item) == if go then FetchItem(file, r1) else (r1, None)
    {
      hide Read, Decode, DecodeValue;
      if fetchPos == 0 {
        var magic := ReadBytes(file, 4);
        if magic != MagicHeader {
          return None;
        }
      }
      if fetchId == -1 {
        var crc := ReadBytes(file, 4);
        if |crc| != 4 {
          return None;
        }
        var count := ReadBytes(file, 4);
        if |count| != 4 {
          return None;
        }
        fetchRecordsAmount := Decode(count);
        fetchId := 0;
      }
      var op := ReadBytes(file, 4);
      if |op| != 4 {
        return None;
      }
      var key := ReadBytes(file, KEY_LEN);
      if |key| != KEY_LEN {
        return None;
      }
      var value := ReadBytes(file, 24);
      if |value| != 24 {
        return None;
      }
      fetchId := fetchId + 1;
      if fetchId == fetchRecordsAmount {
        fetchId := -1;
      }
      return Some(RawItem(Decode(op), key, DecodeValue(value)));
    }
  }
}
