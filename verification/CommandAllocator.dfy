/** src/dawn_native/CommandAllocator: tagged, aligned records written into growing blocks, and the
    iterator that reads them back. Memory is the map of the 32-bit cells that hold ids and tags; the
    command payloads belong to the callers, and RegionsApart shows that they never meet a cell.
    malloc is a call into the C runtime, so its result is a parameter. */
module CommandStream {
  import opened Wrappers
  import PowersOfTwo

  type Addr = nat
  const NULL: Addr := 0
  const END_OF_BLOCK: nat := 0xFFFF_FFFF
  const SIZE_T: nat := 0x1_0000_0000_0000_0000
  /** An id, padding for the largest alignment, padding for the next id, and the next id. */
  const WORST_CASE_ADDITIONAL_SIZE: nat := 4 + 8 + 4 + 4

  datatype BlockDef = BlockDef(size: nat, block: Addr)
  datatype Record = Record(id: nat, size: nat, alignment: nat)
  /** A record together with where its payload lies. */
  datatype Entry = Entry(record: Record, address: Addr)
  type Memory = map<Addr, nat>

  predicate IsAlignment(a: nat) {
    a == 1 || a == 2 || a == 4 || a == 8
  }

  function AlignPtr(p: Addr, a: nat): (r: Addr)
    requires IsAlignment(a)
    ensures p <= r < p + a
  {
    if a == 1 then p else if a == 2 then (p + 1) / 2 * 2 else if a == 4 then (p + 3) / 4 * 4 else (p + 7) / 8 * 8
  }

  /** AlignPtr gives the next multiple of the alignment, as Align does for any alignment. */
  lemma AlignPtrIsAligned(p: Addr, a: nat)
    requires IsAlignment(a)
    ensures AlignPtr(p, a) % a == 0 && (p % a == 0 ==> AlignPtr(p, a) == p)
    ensures AlignPtr(p, a) == PowersOfTwo.Align(p, a)
  {
    if a == 2 {
      UpToMultiple(p, (p + 1) / 2, 2);
    } else if a == 4 {
      UpToMultiple(p, (p + 3) / 4, 4);
    } else if a == 8 {
      UpToMultiple(p, (p + 7) / 8, 8);
    }
  }

  lemma UpToMultiple(p: nat, q: nat, a: nat)
    requires (a == 2 || a == 4 || a == 8) && q == (p + a - 1) / a
    ensures q * a % a == 0 && (p % a == 0 ==> q * a == p)
  {
    if a == 2 {
      assert q * 2 % 2 == 0;
    } else if a == 4 {
      assert q * 4 % 4 == 0;
    } else {
      assert q * 8 % 8 == 0;
    }
  }

  predicate RecordOk(r: Record) {
    IsAlignment(r.alignment) && r.id < END_OF_BLOCK
  }

  ghost predicate RecordsOk(rs: seq<Record>) {
    forall i :: 0 <= i < |rs| ==> RecordOk(rs[i])
  }

  /** Where the payload of r goes when its id is at p. */
  function PayloadAt(p: Addr, r: Record): (a: Addr)
    requires RecordOk(r)
    ensures p + 4 <= a < p + 4 + 8
  {
    AlignPtr(p + 4, r.alignment)
  }

  /** Where the cell after r goes. */
  function Next(p: Addr, r: Record): (q: Addr)
    requires RecordOk(r)
    ensures PayloadAt(p, r) + r.size <= q < p + r.size + 4 + 8 + 4 && q % 4 == 0
  {
    AlignPtr(PayloadAt(p, r) + r.size, 4)
  }

  /** Where the cell after the records rs goes in a block that starts at `start`. */
  function Pos(start: Addr, rs: seq<Record>): (p: Addr)
    requires RecordsOk(rs)
    ensures p >= start && (rs == [] ==> p == start) && (start % 4 == 0 ==> p % 4 == 0)
  {
    if rs == [] then start else Next(Pos(start, rs[..|rs| - 1]), rs[|rs| - 1])
  }

  lemma PosAppend(start: Addr, rs: seq<Record>, r: Record)
    requires RecordsOk(rs) && RecordOk(r)
    ensures RecordsOk(rs + [r]) && Pos(start, rs + [r]) == Next(Pos(start, rs), r)
  {
    assert (rs + [r])[..|rs + [r]| - 1] == rs;
  }

  lemma PosStep(start: Addr, rs: seq<Record>, i: nat)
    requires RecordsOk(rs) && i < |rs|
    ensures Pos(start, rs[..i + 1]) == Next(Pos(start, rs[..i]), rs[i])
  {
    assert rs[..i + 1] == rs[..i] + [rs[i]];
    PosAppend(start, rs[..i], rs[i]);
  }

  /** Inside a block, cells and payloads follow each other without overlap. */
  lemma {:induction false} RegionsApart(start: Addr, rs: seq<Record>, i: nat, j: nat)
    requires RecordsOk(rs) && i < j <= |rs|
    ensures Pos(start, rs[..i]) + 4 <= PayloadAt(Pos(start, rs[..i]), rs[i])
    ensures PayloadAt(Pos(start, rs[..i]), rs[i]) + rs[i].size <= Pos(start, rs[..j])
    decreases j
  {
    PosStep(start, rs, j - 1);
    if i + 1 < j { RegionsApart(start, rs, i, j - 1); }
  }

  /** The cells of a block hold the ids of its records. */
  ghost predicate CellOk(mem: Memory, start: Addr, rs: seq<Record>, i: nat)
    requires RecordsOk(rs) && i < |rs|
  {
    Pos(start, rs[..i]) in mem && mem[Pos(start, rs[..i])] == rs[i].id
  }

  ghost predicate Written(mem: Memory, b: BlockDef, rs: seq<Record>) {
    && RecordsOk(rs) && b.block % 4 == 0 && b.block > NULL && Pos(b.block, rs) + 4 <= b.block + b.size
    && forall i {:trigger CellOk(mem, b.block, rs, i)} :: 0 <= i < |rs| ==> CellOk(mem, b.block, rs, i)
  }

  /** The block is complete: an end tag follows its records. */
  ghost predicate Closed(mem: Memory, b: BlockDef, rs: seq<Record>) {
    Written(mem, b, rs) && Pos(b.block, rs) in mem && mem[Pos(b.block, rs)] == END_OF_BLOCK
  }

  predicate Disjoint(a: BlockDef, b: BlockDef) {
    a.block + a.size <= b.block || b.block + b.size <= a.block
  }

  ghost predicate AllRecordsOk(blocks: seq<BlockDef>, recs: seq<seq<Record>>) {
    |recs| == |blocks| && forall k {:trigger recs[k]} :: 0 <= k < |recs| ==> RecordsOk(recs[k])
  }

  /** What reading the records of one block yields. */
  ghost function BlockEntries(start: Addr, rs: seq<Record>): (r: seq<Entry>)
    requires RecordsOk(rs)
    ensures |r| == |rs|
  {
    if rs == [] then [] else
    var n := |rs| - 1;
    BlockEntries(start, rs[..n]) + [Entry(rs[n], PayloadAt(Pos(start, rs[..n]), rs[n]))]
  }

  /** What reading all blocks yields. */
  ghost function AllEntries(blocks: seq<BlockDef>, recs: seq<seq<Record>>): (r: seq<Entry>)
    requires AllRecordsOk(blocks, recs)
  {
    if blocks == [] then [] else
    var m := |blocks| - 1;
    AllEntries(blocks[..m], recs[..m]) + BlockEntries(blocks[m].block, recs[m])
  }

  lemma EntriesAppend(start: Addr, rs: seq<Record>, r: Record)
    requires RecordsOk(rs) && RecordOk(r)
    ensures RecordsOk(rs + [r])
    ensures BlockEntries(start, rs + [r]) == BlockEntries(start, rs) + [Entry(r, PayloadAt(Pos(start, rs), r))]
  {
    assert (rs + [r])[..|rs|] == rs;
  }

  /** Writing a record at the end of the last block appends it to what is read. */
  lemma AllAppend(blocks: seq<BlockDef>, recs: seq<seq<Record>>, recs': seq<seq<Record>>, r: Record)
    requires AllRecordsOk(blocks, recs) && RecordOk(r) && |blocks| > 0
    requires var m := |blocks| - 1; recs' == recs[m := recs[m] + [r]]
    ensures AllRecordsOk(blocks, recs')
    ensures var m := |blocks| - 1;
      AllEntries(blocks, recs') == AllEntries(blocks, recs) + [Entry(r, PayloadAt(Pos(blocks[m].block, recs[m]), r))]
  {
    var m := |blocks| - 1;
    EntriesAppend(blocks[m].block, recs[m], r);
    assert recs'[..m] == recs[..m];
  }

  /** A block without records adds nothing to what is read. */
  lemma AllNewBlock(blocks: seq<BlockDef>, recs: seq<seq<Record>>, def: BlockDef)
    requires AllRecordsOk(blocks, recs)
    ensures AllRecordsOk(blocks + [def], recs + [[]])
    ensures AllEntries(blocks + [def], recs + [[]]) == AllEntries(blocks, recs)
  {
    var m := |blocks|;
    assert (blocks + [def])[..m] == blocks && (recs + [[]])[..m] == recs;
    assert BlockEntries(def.block, []) == [];
  }

  /** A record of a block lies inside it, before the block's last cell. */
  lemma RegionInBlock(mem: Memory, b: BlockDef, rs: seq<Record>, i: nat)
    requires Written(mem, b, rs) && i < |rs|
    ensures b.block <= Pos(b.block, rs[..i])
    ensures PayloadAt(Pos(b.block, rs[..i]), rs[i]) + rs[i].size <= Pos(b.block, rs)
    ensures Pos(b.block, rs) + 4 <= b.block + b.size
  {
    RegionsApart(b.block, rs, i, |rs|);
    assert rs[..|rs|] == rs;
  }

  /** Writing one cell of a block leaves the rest of memory as it was. */
  lemma WrittenFrame(mem: Memory, mem': Memory, b: BlockDef, rs: seq<Record>, p: Addr)
    requires Written(mem, b, rs) && p in mem' && mem' == mem[p := mem'[p]]
    requires p < b.block || Pos(b.block, rs) <= p
    ensures Written(mem', b, rs)
    ensures p != Pos(b.block, rs) && Closed(mem, b, rs) ==> Closed(mem', b, rs)
  {
    forall i | 0 <= i < |rs| ensures CellOk(mem', b.block, rs, i) {
      assert CellOk(mem, b.block, rs, i);
      RegionsApart(b.block, rs, i, |rs|);
      assert rs[..|rs|] == rs;
    }
  }

  lemma {:induction false} WrittenAppend(mem: Memory, mem': Memory, b: BlockDef, rs: seq<Record>, r: Record)
    requires Written(mem, b, rs) && RecordOk(r)
    requires mem' == mem[Pos(b.block, rs) := r.id] && Next(Pos(b.block, rs), r) + 4 <= b.block + b.size
    ensures RecordsOk(rs + [r]) && Written(mem', b, rs + [r])
  {
    PosAppend(b.block, rs, r);
    forall i | 0 <= i < |rs + [r]| ensures CellOk(mem', b.block, rs + [r], i) {
      if i < |rs| {
        assert (rs + [r])[..i] == rs[..i] && CellOk(mem, b.block, rs, i);
        RegionsApart(b.block, rs, i, |rs|);
        assert rs[..|rs|] == rs;
      } else {
        assert (rs + [r])[..i] == rs;
      }
    }
  }

  /** All blocks but the last are complete, the last is being written, and none overlap. */
  ghost predicate Stream(mem: Memory, blocks: seq<BlockDef>, recs: seq<seq<Record>>) {
    && AllRecordsOk(blocks, recs)
    && (forall b {:trigger blocks[b]} :: 0 <= b < |blocks| ==> Written(mem, blocks[b], recs[b]))
    && (forall b {:trigger Closed(mem, blocks[b], recs[b])} :: 0 <= b < |blocks| - 1 ==>
      Closed(mem, blocks[b], recs[b]))
    && AllApart(blocks)
  }

  predicate ApartFrom(blocks: seq<BlockDef>, def: BlockDef) {
    forall b :: 0 <= b < |blocks| ==> Disjoint(blocks[b], def)
  }

  predicate AllApart(blocks: seq<BlockDef>) {
    forall b, c {:trigger Disjoint(blocks[b], blocks[c])} :: 0 <= b < c < |blocks| ==> Disjoint(blocks[b], blocks[c])
  }

  /** Writing a cell at or past the end of the last block's records keeps the stream. */
  lemma StreamTag(mem: Memory, mem': Memory, blocks: seq<BlockDef>, recs: seq<seq<Record>>, tag: nat)
    requires Stream(mem, blocks, recs) && |blocks| > 0
    requires var m := |blocks| - 1; mem' == mem[Pos(blocks[m].block, recs[m]) := tag]
    ensures Stream(mem', blocks, recs)
    ensures tag == END_OF_BLOCK ==> var m := |blocks| - 1; Closed(mem', blocks[m], recs[m])
  {
    var m := |blocks| - 1;
    var p := Pos(blocks[m].block, recs[m]);
    assert Written(mem, blocks[m], recs[m]);
    WrittenFrame(mem, mem', blocks[m], recs[m], p);
    forall b | 0 <= b < m ensures Written(mem', blocks[b], recs[b]) && Closed(mem', blocks[b], recs[b]) {
      OtherBlock(mem, mem', blocks, recs, b, p);
    }
  }

  lemma OtherBlock(mem: Memory, mem': Memory, blocks: seq<BlockDef>, recs: seq<seq<Record>>, b: nat,
                   p: Addr)
    requires Stream(mem, blocks, recs) && b < |blocks| - 1 && p in mem' && mem' == mem[p := mem'[p]]
    requires var m := |blocks| - 1; blocks[m].block <= p < blocks[m].block + blocks[m].size
    ensures Written(mem', blocks[b], recs[b]) && Closed(mem', blocks[b], recs[b])
  {
    assert Closed(mem, blocks[b], recs[b]) && Written(mem, blocks[b], recs[b]);
    assert Disjoint(blocks[b], blocks[|blocks| - 1]);
    WrittenFrame(mem, mem', blocks[b], recs[b], p);
  }

  lemma StreamAppend(mem: Memory, mem': Memory, blocks: seq<BlockDef>, recs: seq<seq<Record>>,
                     recs': seq<seq<Record>>, r: Record)
    requires Stream(mem, blocks, recs) && |blocks| > 0 && RecordOk(r)
    requires var m := |blocks| - 1;
      && mem' == mem[Pos(blocks[m].block, recs[m]) := r.id] && recs' == recs[m := recs[m] + [r]]
      && Next(Pos(blocks[m].block, recs[m]), r) + 4 <= blocks[m].block + blocks[m].size
    ensures Stream(mem', blocks, recs')
  {
    var m := |blocks| - 1;
    assert Written(mem, blocks[m], recs[m]);
    WrittenAppend(mem, mem', blocks[m], recs[m], r);
    forall b | 0 <= b < m ensures Written(mem', blocks[b], recs'[b]) && Closed(mem', blocks[b], recs'[b]) {
      OtherBlock(mem, mem', blocks, recs, b, Pos(blocks[m].block, recs[m]));
    }
  }

  lemma RecordWritten(mem: Memory, mem': Memory, blocks: seq<BlockDef>, recs: seq<seq<Record>>,
                      recs': seq<seq<Record>>, r: Record)
    requires Stream(mem, blocks, recs) && |blocks| > 0 && RecordOk(r)
    requires var m := |blocks| - 1;
      && mem' == mem[Pos(blocks[m].block, recs[m]) := r.id] && recs' == recs[m := recs[m] + [r]]
      && Next(Pos(blocks[m].block, recs[m]), r) + 4 <= blocks[m].block + blocks[m].size
    ensures Stream(mem', blocks, recs')
    ensures var m := |blocks| - 1; var p := Pos(blocks[m].block, recs[m]);
      && Pos(blocks[m].block, recs'[m]) == Next(p, r)
      && AllEntries(blocks, recs') == AllEntries(blocks, recs) + [Entry(r, PayloadAt(p, r))]
  {
    var m := |blocks| - 1;
    StreamAppend(mem, mem', blocks, recs, recs', r);
    PosAppend(blocks[m].block, recs[m], r);
    AllAppend(blocks, recs, recs', r);
  }

  lemma StreamNewBlock(mem: Memory, blocks: seq<BlockDef>, recs: seq<seq<Record>>, def: BlockDef)
    requires Stream(mem, blocks, recs) && (|blocks| > 0 ==> var m := |blocks| - 1; Closed(mem, blocks[m], recs[m]))
    requires def.block % 4 == 0 && def.block > NULL && def.size >= 4
    requires forall b :: 0 <= b < |blocks| ==> Disjoint(blocks[b], def)
    ensures Stream(mem, blocks + [def], recs + [[]])
  {
    var blocks', recs' := blocks + [def], recs + [[]];
    forall b | 0 <= b < |blocks'| ensures Written(mem, blocks'[b], recs'[b]) {
      if b < |blocks| { assert Written(mem, blocks[b], recs[b]); }
    }
    forall b | 0 <= b < |blocks'| - 1 ensures Closed(mem, blocks'[b], recs'[b]) {
      assert b < |blocks| - 1 ==> Closed(mem, blocks[b], recs[b]);
    }
    forall b, c | 0 <= b < c < |blocks'| ensures Disjoint(blocks'[b], blocks'[c]) {
      if c < |blocks| { assert Disjoint(blocks[b], blocks[c]); }
    }
  }

  lemma NewBlockOk(mem: Memory, blocks: seq<BlockDef>, recs: seq<seq<Record>>, def: BlockDef,
                   other: BlockDef)
    requires Stream(mem, blocks, recs) && (|blocks| > 0 ==> var m := |blocks| - 1; Closed(mem, blocks[m], recs[m]))
    requires def.block % 4 == 0 && def.block > NULL && def.size >= 4 && Disjoint(def, other)
    requires forall b {:trigger blocks[b]} :: 0 <= b < |blocks| ==>
      Disjoint(blocks[b], def) && Disjoint(blocks[b], other)
    ensures Stream(mem, blocks + [def], recs + [[]])
    ensures AllEntries(blocks + [def], recs + [[]]) == AllEntries(blocks, recs)
    ensures var blocks' := blocks + [def]; forall b {:trigger blocks'[b]} :: 0 <= b < |blocks'| ==>
      Disjoint(blocks'[b], other)
    ensures AlignPtr(def.block, 4) == Pos(def.block, [])
  {
    StreamNewBlock(mem, blocks, recs, def);
    AllNewBlock(blocks, recs, def);
    AlignPtrIsAligned(def.block, 4);
  }

  /** Addition of size_t. */
  function WrapAdd(a: nat, b: nat): (r: nat)
    requires a < SIZE_T && b < SIZE_T
    ensures r < SIZE_T
  {
    if a + b >= SIZE_T then a + b - SIZE_T else a + b
  }

  /** The size of the next block: double the last, up to 16 KiB, but at least what is asked for. */
  function NextAllocationSize(last: nat, minimumSize: nat): (r: nat)
    requires last < SIZE_T && minimumSize < SIZE_T
    ensures minimumSize <= r < SIZE_T && (r == minimumSize || r <= 16384)
    ensures 2 * last <= 16384 ==> r == if minimumSize <= 2 * last then 2 * last else minimumSize
    ensures 16384 <= 2 * last < SIZE_T ==> r == if minimumSize <= 16384 then 16384 else minimumSize
  {
    var doubled := WrapAdd(last, last);
    var capped := if doubled < 16384 then doubled else 16384;
    if capped < minimumSize then minimumSize else capped
  }

  class CommandAllocator {
    var mem: Memory
    var blocks: seq<BlockDef>
    var lastAllocationSize: nat
    var currentPtr: Addr
    var endPtr: Addr
    /** The address of mDummyEnum, which stands in for a block until the first allocation. */
    const dummy: Addr
    ghost var recs: seq<seq<Record>>
    ghost var log: seq<Entry>

    ghost predicate Valid()
      reads this
    {
      && Stream(mem, blocks, recs) && dummy > NULL && dummy % 4 == 0
      && (blocks == [] ==> currentPtr == dummy && endPtr == dummy + 4)
      && (blocks != [] ==>
            var m := |blocks| - 1;
            currentPtr == Pos(blocks[m].block, recs[m]) && endPtr == blocks[m].block + blocks[m].size)
      && ApartFrom(blocks, BlockDef(4, dummy))
      && log == AllEntries(blocks, recs) && lastAllocationSize < SIZE_T
      && (blocks == [] ==> mem.Keys == {dummy})
    }

    constructor (dummy: Addr)
      requires dummy > NULL && dummy % 4 == 0
      ensures Valid() && log == [] && this.dummy == dummy && lastAllocationSize == 2048
    {
      this.dummy := dummy;
      mem := map[dummy := 0];
      blocks := [];
      lastAllocationSize := 2048;
      currentPtr := dummy;
      endPtr := dummy + 4;
      recs := [];
      log := [];
    }

    /** There is room for the command and for the worst case of ids and padding around it. */
    predicate Fits(commandSize: nat)
      reads this
    {
      endPtr - currentPtr >= WORST_CASE_ADDITIONAL_SIZE
        && endPtr - currentPtr - WORST_CASE_ADDITIONAL_SIZE >= commandSize
    }

    /** What malloc promises about a block of the given size. */
    predicate Fresh(block: Addr, size: nat)
      reads this
    {
      && block % 4 == 0 && block > NULL && Disjoint(BlockDef(size, block), BlockDef(4, dummy))
      && ApartFrom(blocks, BlockDef(size, block))
    }

    method Allocate(commandId: nat, commandSize: nat, commandAlignment: nat, malloc: Option<Addr>) returns (r: Addr)
      requires Valid() && commandId < END_OF_BLOCK && IsAlignment(commandAlignment) && commandSize < SIZE_T
      requires malloc.Some? ==>
        Fresh(malloc.value, NextAllocationSize(lastAllocationSize, WrapAdd(commandSize, WORST_CASE_ADDITIONAL_SIZE)))
      modifies this`mem, this`blocks, this`lastAllocationSize, this`currentPtr, this`endPtr, this`recs, this`log
      ensures Valid()
      ensures r == NULL <==>
        && old(endPtr) - old(currentPtr) < commandSize + 20
        && (commandSize + 20 >= 0x1_0000_0000_0000_0000 || malloc.None?)
      ensures r == NULL ==> log == old(log)
      ensures r != NULL ==>
        log == old(log) + [Entry(Record(commandId, commandSize, commandAlignment), r)] && r % commandAlignment == 0
      decreases if Fits(commandSize) then 0 else 1, 1
    {
      var remainingSize := endPtr - currentPtr;
      if remainingSize >= WORST_CASE_ADDITIONAL_SIZE && remainingSize - WORST_CASE_ADDITIONAL_SIZE >= commandSize {
        r := WriteRecord(commandId, commandSize, commandAlignment);
        return;
      }
      r := AllocateInNewBlock(commandId, commandSize, commandAlignment, malloc);
    }

    /** The good case of Allocate. */
    method WriteRecord(commandId: nat, commandSize: nat, commandAlignment: nat) returns (r: Addr)
      requires Valid() && Fits(commandSize) && commandId < END_OF_BLOCK && IsAlignment(commandAlignment)
      modifies this`mem, this`currentPtr, this`recs, this`log
      ensures Valid() && r != NULL && log == old(log) + [Entry(Record(commandId, commandSize, commandAlignment), r)]
      ensures r % commandAlignment == 0
    {
      ghost var m, record := |blocks| - 1, Record(commandId, commandSize, commandAlignment);
      ghost var mem0, recs0 := mem, recs;
      assert blocks != [];
      assert Written(mem, blocks[m], recs[m]);
      ghost var p := currentPtr;
      mem := mem[currentPtr := commandId];
      r := AlignPtr(currentPtr + 4, commandAlignment);
      AlignPtrIsAligned(currentPtr + 4, commandAlignment);
      currentPtr := AlignPtr(r + commandSize, 4);
      assert r == PayloadAt(p, record) && currentPtr == Next(p, record);
      recs := recs[m := recs[m] + [record]];
      RecordWritten(mem0, mem, blocks, recs0, recs, record);
      log := log + [Entry(record, r)];
    }

    method AllocateInNewBlock(commandId: nat, commandSize: nat, commandAlignment: nat, malloc: Option<Addr>)
      returns (r: Addr)
      requires Valid() && commandId < END_OF_BLOCK && IsAlignment(commandAlignment) && commandSize < SIZE_T
      requires !Fits(commandSize)
      requires malloc.Some? ==>
        Fresh(malloc.value, NextAllocationSize(lastAllocationSize, WrapAdd(commandSize, WORST_CASE_ADDITIONAL_SIZE)))
      modifies this`mem, this`blocks, this`lastAllocationSize, this`currentPtr, this`endPtr, this`recs, this`log
      ensures Valid()
      ensures r == NULL <==> commandSize + WORST_CASE_ADDITIONAL_SIZE >= SIZE_T || malloc.None?
      ensures r == NULL ==> log == old(log)
      ensures r != NULL ==>
        log == old(log) + [Entry(Record(commandId, commandSize, commandAlignment), r)] && r % commandAlignment == 0
      decreases 1, 0
    {
      WriteEndTag();
      var requestedBlockSize := WrapAdd(commandSize, WORST_CASE_ADDITIONAL_SIZE);
      // The request may have wrapped around.
      if requestedBlockSize <= commandSize {
        return NULL;
      }
      var ok := GetNewBlock(requestedBlockSize, malloc);
      if !ok {
        return NULL;
      }
      r := Allocate(commandId, commandSize, commandAlignment, None);
    }

    method WriteEndTag()
      requires Valid()
      modifies this`mem
      ensures Valid() && (blocks != [] ==> Closed(mem, blocks[|blocks| - 1], recs[|recs| - 1]))
    {
      ghost var mem0 := mem;
      mem := mem[currentPtr := END_OF_BLOCK];
      if blocks != [] { StreamTag(mem0, mem, blocks, recs, END_OF_BLOCK); }
    }

    method GetNewBlock(minimumSize: nat, malloc: Option<Addr>) returns (ok: bool)
      requires Valid() && WORST_CASE_ADDITIONAL_SIZE <= minimumSize < SIZE_T
      requires blocks != [] ==> Closed(mem, blocks[|blocks| - 1], recs[|recs| - 1])
      requires malloc.Some? ==> Fresh(malloc.value, NextAllocationSize(lastAllocationSize, minimumSize))
      modifies this`blocks, this`lastAllocationSize, this`currentPtr, this`endPtr, this`recs
      ensures Valid() && log == old(log) && ok == malloc.Some?
      ensures lastAllocationSize == NextAllocationSize(old(lastAllocationSize), minimumSize)
      ensures ok ==> endPtr - currentPtr == lastAllocationSize >= minimumSize
    {
      lastAllocationSize := NextAllocationSize(lastAllocationSize, minimumSize);
      if malloc.None? {
        return false;
      }
      AddBlock(BlockDef(lastAllocationSize, malloc.value));
      ok := true;
    }

    method AddBlock(def: BlockDef)
      requires Valid() && def.size >= 4 && Fresh(def.block, def.size)
      requires blocks != [] ==> Closed(mem, blocks[|blocks| - 1], recs[|recs| - 1])
      modifies this`blocks, this`currentPtr, this`endPtr, this`recs
      ensures Valid() && endPtr - currentPtr == def.size
    {
      NewBlockOk(mem, blocks, recs, def, BlockDef(4, dummy));
      blocks := blocks + [def];
      recs := recs + [[]];
      currentPtr := AlignPtr(def.block, 4);
      endPtr := def.block + def.size;
    }

    /** Close the stream and give its blocks away. */
    method AcquireBlocks() returns (acquired: seq<BlockDef>)
      requires Valid()
      modifies this`mem, this`blocks, this`currentPtr, this`endPtr
      ensures recs == old(recs) && log == old(log) && acquired == old(blocks) && blocks == [] && currentPtr == NULL
      ensures endPtr == NULL
      ensures AllClosed(mem, acquired, recs) && log == AllEntries(acquired, recs)
      ensures (acquired == [] ==> mem.Keys == {dummy})
    {
      WriteEndTag();
      acquired := blocks;
      CloseAll(mem, acquired, recs);
      currentPtr := NULL;
      endPtr := NULL;
      blocks := [];
    }
  }

  ghost predicate AllClosed(mem: Memory, blocks: seq<BlockDef>, recs: seq<seq<Record>>) {
    && AllRecordsOk(blocks, recs) && AllApart(blocks)
    && forall b {:trigger Closed(mem, blocks[b], recs[b])} :: 0 <= b < |blocks| ==> Closed(mem, blocks[b], recs[b])
  }

  lemma CloseAll(mem: Memory, blocks: seq<BlockDef>, recs: seq<seq<Record>>)
    requires Stream(mem, blocks, recs) && (blocks != [] ==> Closed(mem, blocks[|blocks| - 1], recs[|recs| - 1]))
    ensures AllClosed(mem, blocks, recs)
  {
    forall b | 0 <= b < |blocks| ensures Closed(mem, blocks[b], recs[b]) {
      if b < |blocks| - 1 { assert Closed(mem, blocks[b], recs[b]); }
    }
  }

  /** The memory of record i of block b, from its id to the end of its payload; behind the last record, that
      of the end tag. */
  ghost function Region(blocks: seq<BlockDef>, recs: seq<seq<Record>>, b: nat, i: nat): (r: BlockDef)
    requires AllRecordsOk(blocks, recs) && b < |blocks| && i <= |recs[b]|
  {
    var p := Pos(blocks[b].block, recs[b][..i]);
    if i < |recs[b]| then BlockDef(PayloadAt(p, recs[b][i]) + recs[b][i].size - p, p) else BlockDef(4, p)
  }

  lemma RegionInside(mem: Memory, blocks: seq<BlockDef>, recs: seq<seq<Record>>, b: nat, i: nat)
    requires AllClosed(mem, blocks, recs) && b < |blocks| && i <= |recs[b]|
    ensures var r := Region(blocks, recs, b, i);
      blocks[b].block <= r.block && r.block + r.size <= blocks[b].block + blocks[b].size
  {
    assert Closed(mem, blocks[b], recs[b]);
    assert recs[b][..|recs[b]|] == recs[b];
    if i < |recs[b]| { RegionInBlock(mem, blocks[b], recs[b], i); }
  }

  /** No two records of a stream overlap, nor does one overlap an end tag, in one block or in two. */
  lemma StreamApart(mem: Memory, blocks: seq<BlockDef>, recs: seq<seq<Record>>, b: nat, i: nat,
                    c: nat, j: nat)
    requires AllClosed(mem, blocks, recs) && b <= c < |blocks| && i <= |recs[b]| && j <= |recs[c]| && (b == c ==> i < j)
    ensures Disjoint(Region(blocks, recs, b, i), Region(blocks, recs, c, j))
  {
    if b == c {
      RegionsApart(blocks[b].block, recs[b], i, j);
    } else {
      RegionInside(mem, blocks, recs, b, i);
      RegionInside(mem, blocks, recs, c, j);
      assert Disjoint(blocks[b], blocks[c]);
    }
  }

  /** The entries before record i of block b. */
  ghost function Before(blocks: seq<BlockDef>, recs: seq<seq<Record>>, b: nat, i: nat): (r: seq<Entry>)
    requires AllRecordsOk(blocks, recs) && b < |blocks| && i <= |recs[b]|
  {
    AllEntries(blocks[..b], recs[..b]) + BlockEntries(blocks[b].block, recs[b][..i])
  }

  lemma BeforeStep(blocks: seq<BlockDef>, recs: seq<seq<Record>>, b: nat, i: nat)
    requires AllRecordsOk(blocks, recs) && b < |blocks| && i < |recs[b]|
    ensures var rs := recs[b]; var p := Pos(blocks[b].block, rs[..i]);
      Before(blocks, recs, b, i + 1) == Before(blocks, recs, b, i) + [Entry(rs[i], PayloadAt(p, rs[i]))]
  {
    assert recs[b][..i + 1] == recs[b][..i] + [recs[b][i]];
    EntriesAppend(blocks[b].block, recs[b][..i], recs[b][i]);
  }

  lemma StartOfBlock(mem: Memory, blocks: seq<BlockDef>, recs: seq<seq<Record>>, b: nat)
    requires AllClosed(mem, blocks, recs) && b < |blocks|
    ensures recs[b][..0] == [] && AlignPtr(blocks[b].block, 4) == Pos(blocks[b].block, recs[b][..0])
  {
    assert Closed(mem, blocks[b], recs[b]);
    AlignPtrIsAligned(blocks[b].block, 4);
  }

  /** Aligning up from the end of a payload finds the next cell. */
  lemma EndOfPayload(blocks: seq<BlockDef>, recs: seq<seq<Record>>, b: nat, i: nat)
    requires AllRecordsOk(blocks, recs) && b < |blocks| && i < |recs[b]|
    ensures var rs := recs[b]; var p := Pos(blocks[b].block, rs[..i]); var a := AlignPtr(p + 4, rs[i].alignment);
      && AlignPtr(a + rs[i].size, 4) == Pos(blocks[b].block, rs[..i + 1])
      && Before(blocks, recs, b, i + 1) == Before(blocks, recs, b, i) + [Entry(rs[i], a)] && RecordsOk(rs[..i + 1])
  {
    BeforeStep(blocks, recs, b, i);
    PosStep(blocks[b].block, recs[b], i);
  }

  /** The end of one block is the start of the next. */
  lemma BeforeNextBlock(blocks: seq<BlockDef>, recs: seq<seq<Record>>, b: nat)
    requires AllRecordsOk(blocks, recs) && b < |blocks|
    ensures Before(blocks, recs, b, |recs[b]|) == AllEntries(blocks[..b + 1], recs[..b + 1])
    ensures b + 1 < |blocks| ==> Before(blocks, recs, b + 1, 0) == Before(blocks, recs, b, |recs[b]|)
    ensures b + 1 == |blocks| ==> Before(blocks, recs, b, |recs[b]|) == AllEntries(blocks, recs)
  {
    assert recs[b][..|recs[b]|] == recs[b];
    assert blocks[..b + 1][..b] == blocks[..b] && recs[..b + 1][..b] == recs[..b];
    if b + 1 == |blocks| { assert blocks[..b + 1] == blocks && recs[..b + 1] == recs; }
  }

  lemma {:induction false} PrefixOfAll(blocks: seq<BlockDef>, recs: seq<seq<Record>>, b: nat, i: nat)
    requires AllRecordsOk(blocks, recs) && b < |blocks| && i <= |recs[b]|
    ensures Before(blocks, recs, b, i) <= AllEntries(blocks, recs)
    decreases |blocks| - b, |recs[b]| - i
  {
    if i < |recs[b]| {
      BeforeStep(blocks, recs, b, i);
      PrefixOfAll(blocks, recs, b, i + 1);
    } else {
      BeforeNextBlock(blocks, recs, b);
      if b + 1 < |blocks| { PrefixOfAll(blocks, recs, b + 1, 0); }
    }
  }

  class CommandIterator {
    var mem: Memory
    var blocks: seq<BlockDef>
    var currentPtr: Addr
    var currentBlock: nat
    /** The address of mEndOfBlock, which stands in for the block of an empty stream. */
    const endOfBlock: Addr
    ghost var recs: seq<seq<Record>>
    /** How many records of the current block have been read. */
    ghost var i: nat

    ghost predicate Valid()
      reads this
    {
      && AllClosed(mem, blocks, recs) && blocks != [] && currentBlock < |blocks| && i <= |recs[currentBlock]|
      && RecordsOk(recs[currentBlock][..i])
    }

    /** The next cell to read is the id of record i or the tag after the last record. */
    ghost predicate AtId()
      reads this
    {
      Valid() && AlignPtr(currentPtr, 4) == Pos(blocks[currentBlock].block, recs[currentBlock][..i])
    }

    /** The id of record i has been read and its payload comes next. */
    ghost predicate AtPayload()
      reads this
    {
      && Valid() && i < |recs[currentBlock]| && RecordOk(recs[currentBlock][i])
      && currentPtr == Pos(blocks[currentBlock].block, recs[currentBlock][..i]) + 4
    }

    ghost function Done(): (r: seq<Entry>)
      requires Valid()
      reads this
    {
      Before(blocks, recs, currentBlock, i)
    }

    ghost function Contents(): (r: seq<Entry>)
      requires Valid()
      reads this
    {
      AllEntries(blocks, recs)
    }

    constructor (mem: Memory, blocks: seq<BlockDef>, endOfBlock: Addr, ghost recs: seq<seq<Record>>)
      requires AllClosed(mem, blocks, recs) && endOfBlock % 4 == 0 && endOfBlock > NULL
      requires blocks == [] ==> endOfBlock !in mem
      ensures AtId() && Done() == [] && Contents() == AllEntries(blocks, recs)
    {
      this.endOfBlock := endOfBlock;
      this.mem := mem;
      this.blocks := blocks;
      this.recs := recs;
      currentPtr := NULL;
      currentBlock := 0;
      i := 0;
      new;
      if blocks == [] {
        this.mem := this.mem[endOfBlock := END_OF_BLOCK];
        this.blocks := [BlockDef(4, endOfBlock)];
        this.recs := [[]];
        assert Closed(this.mem, this.blocks[0], this.recs[0]);
        AllNewBlock([], [], this.blocks[0]);
        assert [] + [this.blocks[0]] == this.blocks && [] + [[]] == this.recs;
      }
      Reset();
    }

    method Reset()
      requires AllClosed(mem, blocks, recs) && blocks != []
      modifies this`currentPtr, this`currentBlock, this`i
      ensures AtId() && Done() == []
    {
      currentBlock := 0;
      i := 0;
      currentPtr := AlignPtr(blocks[0].block, 4);
      StartOfBlock(mem, blocks, recs, 0);
      assert blocks[..0] == [] && recs[..0] == [];
    }

    method NextCommandId() returns (more: bool, id: nat)
      requires AtId()
      modifies this`currentPtr, this`currentBlock, this`i
      ensures more <==> old(Done()) != old(Contents())
      ensures more ==> AtPayload() && Done() == old(Done()) && id == recs[currentBlock][i].id
      ensures !more ==> AtId() && Done() == [] && id == END_OF_BLOCK
      decreases |blocks| - currentBlock, 1
    {
      var idPtr := AlignPtr(currentPtr, 4);
      ghost var rs := recs[currentBlock];
      assert Closed(mem, blocks[currentBlock], rs);
      assert rs[..|rs|] == rs;
      assert i < |rs| ==> CellOk(mem, blocks[currentBlock].block, rs, i);
      id := mem[idPtr];
      if id != END_OF_BLOCK {
        currentPtr := idPtr + 4;
        MoreToRead();
        return true, id;
      }
      more, id := NextCommandIdInNewBlock();
    }

    lemma MoreToRead()
      requires Valid() && i < |recs[currentBlock]|
      ensures RecordOk(recs[currentBlock][i]) && Done() != Contents()
    {
      BeforeStep(blocks, recs, currentBlock, i);
      PrefixOfAll(blocks, recs, currentBlock, i + 1);
    }

    method NextCommandIdInNewBlock() returns (more: bool, id: nat)
      requires Valid() && i == |recs[currentBlock]|
      modifies this`currentPtr, this`currentBlock, this`i
      ensures more <==> old(Done()) != old(Contents())
      ensures more ==> AtPayload() && Done() == old(Done()) && id == recs[currentBlock][i].id
      ensures !more ==> AtId() && Done() == [] && id == END_OF_BLOCK
      decreases |blocks| - currentBlock, 0
    {
      BeforeNextBlock(blocks, recs, currentBlock);
      currentBlock := currentBlock + 1;
      if currentBlock >= |blocks| {
        Reset();
        return false, END_OF_BLOCK;
      }
      i := 0;
      StartOfBlock(mem, blocks, recs, currentBlock);
      currentPtr := AlignPtr(blocks[currentBlock].block, 4);
      more, id := NextCommandId();
    }

    /** Read the payload of the current record, its size and alignment being known to the caller. */
    method NextCommand(commandSize: nat, commandAlignment: nat) returns (address: Addr)
      requires AtPayload() && IsAlignment(commandAlignment)
      requires commandSize == recs[currentBlock][i].size && commandAlignment == recs[currentBlock][i].alignment
      modifies this`currentPtr, this`i
      ensures AtId() && Done() == old(Done()) + [Entry(old(recs[currentBlock][i]), address)]
    {
      EndOfPayload(blocks, recs, currentBlock, i);
      var commandPtr := AlignPtr(currentPtr, commandAlignment);
      currentPtr := commandPtr + commandSize;
      address := commandPtr;
      i := i + 1;
    }

    /** Iterate to the end: every record comes back with its id and address, in order. */
    method ReadAll(shapes: seq<(nat, nat)>) returns (out: seq<Entry>)
      requires AtId() && Done() == []
      requires |shapes| == |Contents()| && forall k :: 0 <= k < |shapes| ==>
        shapes[k] == (Contents()[k].record.size, Contents()[k].record.alignment)
      modifies this`currentPtr, this`currentBlock, this`i
      ensures AtId() && Done() == [] && out == Contents()
    {
      out := [];
      var more, id := NextCommandId();
      while more
        invariant Valid() && blocks == old(blocks) && recs == old(recs)
        invariant more ==> AtPayload() && out == Done() && id == recs[currentBlock][i].id
        invariant !more ==> AtId() && Done() == [] && out == Contents()
        decreases |Contents()| - |out|, more
      {
        CurrentShape();
        var (size, alignment) := shapes[|out|];
        var address := NextCommand(size, alignment);
        out := out + [Entry(Record(id, size, alignment), address)];
        CurrentPrefix();
        more, id := NextCommandId();
      }
    }

    lemma CurrentPrefix()
      requires Valid()
      ensures Done() <= Contents()
    {
      PrefixOfAll(blocks, recs, currentBlock, i);
    }

    lemma CurrentShape()
      requires AtPayload()
      ensures |Done()| < |Contents()| && Contents()[|Done()|].record == recs[currentBlock][i]
    {
      BeforeStep(blocks, recs, currentBlock, i);
      PrefixOfAll(blocks, recs, currentBlock, i + 1);
    }
  }

  /** What was written is read, and reading it again gives the same. */
  method ReadTwice(mem: Memory, blocks: seq<BlockDef>, endOfBlock: Addr, ghost recs: seq<seq<Record>>,
                   ghost log: seq<Entry>, shapes: seq<(nat, nat)>)
    returns (first: seq<Entry>, second: seq<Entry>)
    requires AllClosed(mem, blocks, recs) && log == AllEntries(blocks, recs)
    requires endOfBlock % 4 == 0 && endOfBlock > NULL && (blocks == [] ==> endOfBlock !in mem)
    requires |shapes| == |log| && forall k :: 0 <= k < |shapes| ==>
      shapes[k] == (log[k].record.size, log[k].record.alignment)
    ensures first == second == log
  {
    var it := new CommandIterator(mem, blocks, endOfBlock, recs);
    first := it.ReadAll(shapes);
    second := it.ReadAll(shapes);
  }

  /** The requests that got an address, with it. */
  function Placed(requests: seq<Record>, addresses: seq<Addr>): (r: seq<Entry>)
    requires |addresses| == |requests|
  {
    if requests == [] then []
    else
      var n := |requests| - 1;
      Placed(requests[..n], addresses[..n]) + if addresses[n] == NULL then [] else [Entry(requests[n], addresses[n])]
  }

  /** The sizes and alignments that a reader has to know. */
  function ShapesOf(entries: seq<Entry>): (shapes: seq<(nat, nat)>)
    ensures |shapes| == |entries|
    ensures forall k :: 0 <= k < |shapes| ==> shapes[k] == (entries[k].record.size, entries[k].record.alignment)
  {
    seq(|entries|, k requires 0 <= k < |entries| => (entries[k].record.size, entries[k].record.alignment))
  }

  /** Whatever is allocated is read back: for every sequence of requests and of answers of malloc, iterating
      twice yields each request that got an address, with its id and that address, in order. */
  method WriteAndRead(dummy: Addr, endOfBlock: Addr, requests: seq<Record>, mallocs: seq<Option<Addr>>)
    returns (addresses: seq<Addr>, first: seq<Entry>, second: seq<Entry>)
    requires dummy > NULL && dummy % 4 == 0 && endOfBlock > NULL && endOfBlock % 4 == 0 && endOfBlock != dummy
    requires |mallocs| == |requests| && forall i :: 0 <= i < |requests| ==>
      RecordOk(requests[i]) && requests[i].size < SIZE_T
    ensures |addresses| == |requests| && first == second == Placed(requests, addresses)
  {
    var allocator;
    allocator, addresses := WriteAll(dummy, requests, mallocs);
    var shapes := ShapesOf(Placed(requests, addresses));
    var blocks := allocator.AcquireBlocks();
    first, second := ReadTwice(allocator.mem, blocks, endOfBlock, allocator.recs, allocator.log, shapes);
  }

  method WriteAll(dummy: Addr, requests: seq<Record>, mallocs: seq<Option<Addr>>)
    returns (allocator: CommandAllocator, addresses: seq<Addr>)
    requires dummy > NULL && dummy % 4 == 0
    requires |mallocs| == |requests| && forall i :: 0 <= i < |requests| ==>
      RecordOk(requests[i]) && requests[i].size < SIZE_T
    ensures fresh(allocator) && allocator.Valid() && allocator.dummy == dummy && |addresses| == |requests|
    ensures allocator.log == Placed(requests, addresses)
  {
    allocator := new CommandAllocator(dummy);
    addresses := [];
    for i := 0 to |requests|
      invariant fresh(allocator) && allocator.Valid() && |addresses| == i
      invariant allocator.log == Placed(requests[..i], addresses)
    {
      var address := AllocateOne(allocator, requests[i], mallocs[i]);
      PlacedMore(requests, addresses, i, address);
      addresses := addresses + [address];
    }
    assert requests[..|requests|] == requests;
  }

  lemma PlacedMore(requests: seq<Record>, addresses: seq<Addr>, i: nat, address: Addr)
    requires i < |requests| && |addresses| == i
    ensures Placed(requests[..i + 1], addresses + [address])
      == Placed(requests[..i], addresses) + if address == NULL then [] else [Entry(requests[i], address)]
  {
    assert requests[..i + 1][..i] == requests[..i] && (addresses + [address])[..i] == addresses;
  }

  /** An answer of malloc that is not fresh memory is no answer. */
  method AllocateOne(allocator: CommandAllocator, r: Record, malloc: Option<Addr>) returns (address: Addr)
    requires allocator.Valid() && RecordOk(r) && r.size < SIZE_T
    modifies allocator
    ensures allocator.Valid()
    ensures allocator.log == old(allocator.log) + if address == NULL then [] else [Entry(r, address)]
  {
    var size := NextAllocationSize(allocator.lastAllocationSize, WrapAdd(r.size, WORST_CASE_ADDITIONAL_SIZE));
    var block := if malloc.Some? && allocator.Fresh(malloc.value, size) then malloc else None;
    address := allocator.Allocate(r.id, r.size, r.alignment, block);
  }
}
