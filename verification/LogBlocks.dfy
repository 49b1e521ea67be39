/** What the poller appends to a sink buffer: blocks of whole log entries of one thread, each
    behind a `ThreadCheckPoint` header, and the nested loops of the sink that walk them. */
module LogBlocks {
  import opened Bytes
  import opened Sequences

  const NAME_SIZE: nat := 20
  const CHECKPOINT_SIZE: nat := 24      // sizeof(ThreadCheckPoint): name_[20], int blockSize_
  const ENTRY_HEADER_SIZE: nat := 24    // sizeof(OneLogEntry)
  const ENTRY_SIZE_AT: nat := 8         // offset of OneLogEntry::entrySize, 4 bytes

  /** A block: the staging buffer `src` it came from, the thread name, the entries. */
  datatype Block = Block(src: nat, name: seq<byte>, entries: seq<seq<byte>>)

  /** One entry as the sink sees it. */
  datatype Rec = Rec(src: nat, name: seq<byte>, entry: seq<byte>)

  function BlockSize(b: Block): nat { |Flatten(b.entries)| }

  function Used(blocks: seq<Block>): nat {
    if blocks == [] then 0 else CHECKPOINT_SIZE + BlockSize(blocks[0]) + Used(blocks[1..])
  }

  lemma {:induction false} UsedAppend(a: seq<Block>, b: seq<Block>)
    ensures Used(a + b) == Used(a) + Used(b)
  {
    if a == [] {
      assert a + b == b;
    } else {
      UsedAppend(a[1..], b);
      assert (a + b)[0] == a[0] && (a + b)[1..] == a[1..] + b;
    }
  }

  /** The entries of one block, from the `e`-th on. */
  function BlockRecs(b: Block, e: nat): seq<Rec>
    requires e <= |b.entries|
  {
    seq(|b.entries| - e, i requires 0 <= i < |b.entries| - e => Rec(b.src, b.name, b.entries[e + i]))
  }

  function Recs(blocks: seq<Block>): seq<Rec> {
    if blocks == [] then [] else BlockRecs(blocks[0], 0) + Recs(blocks[1..])
  }

  lemma {:induction false} RecsAppend(a: seq<Block>, b: seq<Block>)
    ensures Recs(a + b) == Recs(a) + Recs(b)
  {
    if a == [] {
      assert a + b == b;
    } else {
      RecsAppend(a[1..], b);
      assert (a + b)[0] == a[0] && (a + b)[1..] == a[1..] + b;
      Assoc(BlockRecs(a[0], 0), Recs(a[1..]), Recs(b));
      hide BlockRecs;
    }
  }

  // ---------------------------------------------------------------- the bytes

  /** An entry whose own size field is right, as `TZ_LOG` writes it. */
  predicate EntryOk(e: seq<byte>) {
    && ENTRY_HEADER_SIZE <= |e|
    && Decode(e[ENTRY_SIZE_AT..ENTRY_SIZE_AT + 4]) == |e|
  }

  predicate BlockOk(b: Block) {
    && |b.name| == NAME_SIZE && BlockSize(b) < 0x8000_0000
    && forall i | 0 <= i < |b.entries| :: EntryOk(b.entries[i])
  }

  /** What `appendInternal` leaves in the buffer for one block. */
  function BlockBytes(b: Block): (bs: seq<byte>)
    requires |b.name| == NAME_SIZE
    ensures |bs| == CHECKPOINT_SIZE + BlockSize(b)
  {
    b.name + Encode(BlockSize(b), 4) + Flatten(b.entries)
  }

  function BufferBytes(blocks: seq<Block>): (bs: seq<byte>)
    requires forall i | 0 <= i < |blocks| :: BlockOk(blocks[i])
    ensures |bs| == Used(blocks)
  {
    if blocks == [] then [] else assert BlockOk(blocks[0]); BlockBytes(blocks[0]) + BufferBytes(blocks[1..])
  }

  lemma {:induction false} BufferBytesAppend(blocks: seq<Block>, b: Block)
    requires (forall i | 0 <= i < |blocks| :: BlockOk(blocks[i])) && BlockOk(b)
    ensures forall i | 0 <= i < |blocks + [b]| :: BlockOk((blocks + [b])[i])
    ensures BufferBytes(blocks + [b]) == BufferBytes(blocks) + BlockBytes(b)
  {
    hide BlockBytes, EntryOk, BlockSize;
    var all := blocks + [b];
    if blocks == [] {
      assert all == [b] && all[1..] == [];
    } else {
      BufferBytesAppend(blocks[1..], b);
      assert all[0] == blocks[0] && all[1..] == blocks[1..] + [b];
      Assoc(BlockBytes(blocks[0]), BufferBytes(blocks[1..]), BlockBytes(b));
    }
  }

  lemma Front(data: seq<byte>, pos: nat, head: seq<byte>, tail: seq<byte>)
    requires pos <= |data| && data[pos..] == head + tail
    ensures pos + |head| <= |data| && data[pos..pos + |head|] == head && data[pos + |head|..] == tail
  {
    assert data[pos..pos + |head|] == data[pos..][..|head|];
    assert data[pos + |head|..] == data[pos..][|head|..];
  }

  /** The entry at the front of a flattened block. */
  lemma EntryAt(data: seq<byte>, pos: nat, entries: seq<seq<byte>>, rest: seq<byte>)
    requires pos <= |data| && data[pos..] == Flatten(entries) + rest && entries != [] && EntryOk(entries[0])
    ensures pos + |entries[0]| <= |data| && data[pos..pos + |entries[0]|] == entries[0]
    ensures Decode(data[pos + ENTRY_SIZE_AT..pos + ENTRY_SIZE_AT + 4]) == |entries[0]|
    ensures data[pos + |entries[0]|..] == Flatten(entries[1..]) + rest
    ensures |Flatten(entries)| == |entries[0]| + |Flatten(entries[1..])|
  {
    Assoc(entries[0], Flatten(entries[1..]), rest);
    Front(data, pos, entries[0], Flatten(entries[1..]) + rest);
    hide Flatten, Decode;
    assert data[pos + ENTRY_SIZE_AT..pos + ENTRY_SIZE_AT + 4] == entries[0][ENTRY_SIZE_AT..ENTRY_SIZE_AT + 4];
  }

  /** The block at the front of a buffer. */
  lemma BlockAt(data: seq<byte>, pos: nat, b: Block, rest: seq<byte>)
    requires BlockOk(b) && pos <= |data| && data[pos..] == BlockBytes(b) + rest
    ensures pos + CHECKPOINT_SIZE <= |data|
    ensures data[pos..pos + NAME_SIZE] == b.name
    ensures Decode(data[pos + NAME_SIZE..pos + CHECKPOINT_SIZE]) == BlockSize(b)
    ensures data[pos + CHECKPOINT_SIZE..] == Flatten(b.entries) + rest
  {
    var size, body := Encode(BlockSize(b), 4), Flatten(b.entries) + rest;
    assert BlockBytes(b) + rest == b.name + (size + body);
    Front(data, pos, b.name, size + body);
    Front(data, pos + NAME_SIZE, size, body);
    assert Pow256(4) == 256 * Pow256(3) == 256 * (256 * Pow256(2)) == 0x1_0000_0000;
    DecodeEncode(BlockSize(b), 4);
  }

  /** What the sink prints of a record: it does not know which staging buffer it came from. */
  function Printed(rs: seq<Rec>): seq<(seq<byte>, seq<byte>)> {
    seq(|rs|, i requires 0 <= i < |rs| => (rs[i].name, rs[i].entry))
  }

  /** What is printed of each record are its thread's name and the entry, one line a record. */
  lemma PrintedAre(rs: seq<Rec>, k: nat)
    requires k < |rs|
    ensures |Printed(rs)| == |rs| && Printed(rs)[k] == (rs[k].name, rs[k].entry)
  {
  }

  lemma PrintedAppend(a: seq<Rec>, b: seq<Rec>)
    ensures Printed(a + b) == Printed(a) + Printed(b)
  {
  }

  /** The block at `pos` is the `k`-th of the buffer. */
  lemma NextBlock(data: seq<byte>, pos: nat, blocks: seq<Block>, k: nat)
    requires forall i | 0 <= i < |blocks| :: BlockOk(blocks[i])
    requires k <= |blocks| && pos < |data| && data[pos..] == BufferBytes(blocks[k..])
    ensures k < |blocks| && BlockOk(blocks[k]) && pos + CHECKPOINT_SIZE <= |data|
    ensures data[pos..pos + NAME_SIZE] == blocks[k].name
    ensures Decode(data[pos + NAME_SIZE..pos + CHECKPOINT_SIZE]) == BlockSize(blocks[k])
    ensures data[pos + CHECKPOINT_SIZE..] == Flatten(blocks[k].entries) + BufferBytes(blocks[k + 1..])
    ensures Printed(Recs(blocks[k..])) == Printed(BlockRecs(blocks[k], 0)) + Printed(Recs(blocks[k + 1..]))
  {
    assert k < |blocks| && blocks[k..][0] == blocks[k] && blocks[k..][1..] == blocks[k + 1..];
    BlockAt(data, pos, blocks[k], BufferBytes(blocks[k + 1..]));
    PrintedAppend(BlockRecs(blocks[k], 0), Recs(blocks[k + 1..]));
  }

  lemma NoBlockLeft(blocks: seq<Block>, k: nat)
    requires forall i | 0 <= i < |blocks| :: BlockOk(blocks[i])
    requires k <= |blocks| && BufferBytes(blocks[k..]) == []
    ensures k == |blocks| && Printed(Recs(blocks[k..])) == []
  {
    assert |BufferBytes(blocks[k..])| == Used(blocks[k..]);
  }

  /** The entry at `pos` is the `e`-th of the block, and its own size field leads to the next. */
  lemma NextEntry(data: seq<byte>, pos: nat, b: Block, e: nat, rest: seq<byte>)
    requires BlockOk(b) && e <= |b.entries| && pos <= |data|
    requires data[pos..] == Flatten(b.entries[e..]) + rest && |Flatten(b.entries[e..])| > 0
    ensures e < |b.entries| && ENTRY_HEADER_SIZE <= |b.entries[e]| <= |data| - pos
    ensures Decode(data[pos + ENTRY_SIZE_AT..pos + ENTRY_SIZE_AT + 4]) == |b.entries[e]| > 0
    ensures data[pos..pos + |b.entries[e]|] == b.entries[e]
    ensures data[pos + |b.entries[e]|..] == Flatten(b.entries[e + 1..]) + rest
    ensures |Flatten(b.entries[e..])| == |b.entries[e]| + |Flatten(b.entries[e + 1..])|
    ensures Printed(BlockRecs(b, e)) == [(b.name, b.entries[e])] + Printed(BlockRecs(b, e + 1))
  {
    assert e < |b.entries| && EntryOk(b.entries[e]) && b.entries[e..][0] == b.entries[e];
    assert b.entries[e..][1..] == b.entries[e + 1..];
    EntryAt(data, pos, b.entries[e..], rest);
    BlockRecsCons(b, e);
    PrintedAppend([Rec(b.src, b.name, b.entries[e])], BlockRecs(b, e + 1));
  }

  lemma BlockRecsCons(b: Block, e: nat)
    requires e < |b.entries|
    ensures BlockRecs(b, e) == [Rec(b.src, b.name, b.entries[e])] + BlockRecs(b, e + 1)
  {
  }

  lemma SomethingLeft(b: Block, e: nat)
    requires BlockOk(b) && e <= |b.entries|
    ensures |Flatten(b.entries[e..])| == 0 ==> e == |b.entries|
    ensures e == |b.entries| ==> Flatten(b.entries[e..]) == [] && Printed(BlockRecs(b, e)) == []
  {
    if e < |b.entries| {
      assert EntryOk(b.entries[e]) && b.entries[e..][0] == b.entries[e];
    }
  }

  /** The inner loop: the entries of one block, from `pos` on. */
  method WriteBlock(data: seq<byte>, start: nat, blockSize: int, name: seq<byte>, ghost b: Block, ghost rest: seq<byte>)
    returns (pos: nat, remaining: int, lines: seq<(seq<byte>, seq<byte>)>)
    requires BlockOk(b) && b.name == name && blockSize == BlockSize(b)
    requires start <= |data| && data[start..] == Flatten(b.entries) + rest
    ensures remaining == 0 && pos == start + blockSize && pos <= |data| && data[pos..] == rest
    ensures lines == Printed(BlockRecs(b, 0))
  {
    hide Flatten, Printed, BlockRecs, Decode, EntryOk;
    pos, remaining, lines := start, blockSize, [];
    ghost var e := 0;
    assert b.entries[e..] == b.entries;
    while remaining > 0
      invariant 0 <= e <= |b.entries| && pos <= |data| && pos + remaining == start + blockSize
      invariant remaining == |Flatten(b.entries[e..])| && data[pos..] == Flatten(b.entries[e..]) + rest
      invariant lines + Printed(BlockRecs(b, e)) == Printed(BlockRecs(b, 0))
    {
      NextEntry(data, pos, b, e, rest);
      var entrySize := Decode(data[pos + ENTRY_SIZE_AT..pos + ENTRY_SIZE_AT + 4]);
      lines := lines + [(name, data[pos..pos + entrySize])];
      pos := pos + entrySize;
      remaining := remaining - entrySize;
      e := e + 1;
    }
    SomethingLeft(b, e);
  }

  /** The nested loops of `threadFunc` over one sink buffer: they read exactly the records that
      were appended, in order, and both counters end at exactly zero. */
  method WriteBuffer(data: seq<byte>, ghost blocks: seq<Block>)
      returns (bufLen: int, lines: seq<(seq<byte>, seq<byte>)>)
    requires forall i | 0 <= i < |blocks| :: BlockOk(blocks[i])
    requires data == BufferBytes(blocks)
    ensures bufLen == 0
    ensures lines == Printed(Recs(blocks))
  {
    hide Flatten, Printed, BlockRecs, Recs, Decode, BlockOk, BufferBytes;
    bufLen, lines := |data|, [];
    var pos := 0;
    ghost var k := 0;
    assert blocks[0..] == blocks;
    while bufLen > 0
      invariant 0 <= k <= |blocks| && pos <= |data| && bufLen == |data| - pos
      invariant data[pos..] == BufferBytes(blocks[k..])
      invariant lines + Printed(Recs(blocks[k..])) == Printed(Recs(blocks))
    {
      NextBlock(data, pos, blocks, k);
      var blockSize := Decode(data[pos + NAME_SIZE..pos + CHECKPOINT_SIZE]);
      var name := data[pos..pos + NAME_SIZE];
      var next, remaining, written :=
        WriteBlock(data, pos + CHECKPOINT_SIZE, blockSize, name, blocks[k], BufferBytes(blocks[k + 1..]));
      lines := lines + written;
      pos := next;
      bufLen := bufLen - (blockSize + CHECKPOINT_SIZE);
      k := k + 1;
    }
    NoBlockLeft(blocks, k);
  }
}
