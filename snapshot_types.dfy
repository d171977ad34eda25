/**
 * The recipe data model: block, segment and snapshot metadata, their
 * placement flags and 8-byte handles, and the cumulative end-offset
 * encoding their recipes use on disk.
 *
 * `BlockMeta` and `SegmentMeta` are value types in the original (they are
 * copied into and out of vectors), so they are datatypes here and their
 * mutators return the updated value. `SnapshotMeta` is the object that a
 * snapshot's ingestion updates in place.
 */
module SnapshotTypes {
  import opened Bytes
  import opened Maybe
  import Offsets

  /** A checksum is a SHA-1 digest. */
  const CKSUM_LEN: nat := 20
  type Checksum = s: seq<byte> | |s| == CKSUM_LEN witness seq(CKSUM_LEN, i => 0)

  /** Placement flags: where a block's payload lives. */
  type Flags = bv16
  const IN_CDS: Flags := 0x1     // in the common data store
  const IN_AS: Flags := 0x2      // in the VM's own append store
  const IN_PARENT: Flags := 0x4  // duplicate of the parent snapshot

  /** The three placement flags are distinct single bits: OR-ing one in sets it and keeps the others. */
  lemma PlacementFlagsIndependent(f: Flags)
    ensures (f | IN_CDS) & IN_CDS == IN_CDS
    ensures (f | IN_CDS) & (IN_AS | IN_PARENT) == f & (IN_AS | IN_PARENT)
    ensures (f | IN_AS) & IN_AS == IN_AS
    ensures (f | IN_AS) & (IN_CDS | IN_PARENT) == f & (IN_CDS | IN_PARENT)
    ensures (f | IN_PARENT) & IN_PARENT == IN_PARENT
    ensures (f | IN_PARENT) & (IN_CDS | IN_AS) == f & (IN_CDS | IN_AS)
  {
  }

  // ---------------------------------------------------------------- handles

  /**
   * `SetHandle` of blocks and segments: a handle string of exactly 8 bytes
   * is copied into the 8-byte handle field; any other length is refused
   * with result 0 and the field keeps its value. Result: (new field, returned value).
   */
  function SetHandle(current: u64, h: seq<byte>): (r: (u64, u64))
    ensures |h| != 8 ==> r == (current, 0)
    ensures |h| == 8 ==> r.1 == r.0 && GetHandle(r.0) == h
  {
    if |h| != 8 then (current, 0) else (U64Of(h), U64Of(h))
  }

  /** `GetHandle` of blocks and segments: the 8 bytes of the handle field. */
  function GetHandle(handle: u64): (h: seq<byte>)
    ensures |h| == 8
    ensures U64Of(h) == handle
  {
    U64Bytes(handle)
  }

  /** Storing the bytes `GetHandle` produced restores the handle, whatever the field held before. */
  lemma HandleRoundTrip(current: u64, handle: u64)
    ensures SetHandle(current, GetHandle(handle)) == (handle, handle)
  {
  }

  // ----------------------------------------------------------------- blocks

  datatype BlockMeta = BlockMeta(
    endOffset: u32,              // offset right after the block's last byte within its segment
    size: u32,
    cksum: Checksum,
    handle: u64,
    flags: Flags,
    data: Option<seq<byte>>,     // the payload buffer, None for NULL
    isAllocated: bool)           // whether the block owns `data`
  {
    /**
     * `DeserializeData`: an owned buffer is released first; the new bytes
     * are copied in only when their length equals the block size. A buffer
     * the block does not own is left in place when the length differs.
     */
    function DeserializeData(d: seq<byte>): (b: BlockMeta)
      ensures b == this.(data := b.data, isAllocated := b.isAllocated)
      ensures |d| == size ==> b.data == Some(d) && b.isAllocated
      ensures |d| != size && isAllocated && data.Some? ==> b.data == None && !b.isAllocated
      ensures |d| != size && !(isAllocated && data.Some?) ==> b == this
    {
      var released := if isAllocated && data.Some? then this.(data := None, isAllocated := false) else this;
      if size != |d| then released
      else released.(data := Some(d), isAllocated := true)
    }

    /** `SerializeData`: the first `size` bytes of the buffer, nothing when there is none. */
    function SerializeData(): (d: seq<byte>)
      requires data.Some? ==> |data.value| >= size
      ensures data.None? ==> d == []
      ensures data.Some? ==> |d| == size && d == data.value[..size]
    {
      if data.Some? then data.value[..size] else []
    }

    /** What `BlockMeta::Serialize` writes: the size and the payload are not part of it. */
    function Record(): BlockRecord
    {
      BlockRecord(cksum, endOffset, handle, flags)
    }
  }

  /** A freshly constructed block: no handle, no flags, zero offsets, no buffer. */
  function FreshBlockMeta(cksum: Checksum): (b: BlockMeta)
    ensures b.handle == 0 && b.flags == 0 && b.endOffset == 0 && b.size == 0
    ensures b.data == None && !b.isAllocated && b.cksum == cksum
    ensures b.flags & (IN_CDS | IN_AS | IN_PARENT) == 0
  {
    BlockMeta(0, 0, cksum, 0, 0, None, false)
  }

  /** Loading a payload whose length is the block size and serializing it gives the payload back. */
  lemma DataRoundTrip(b: BlockMeta, d: seq<byte>)
    requires |d| == b.size
    ensures b.DeserializeData(d).SerializeData() == d
  {
  }

  /** One entry of a block recipe as written to disk. */
  datatype BlockRecord = BlockRecord(cksum: Checksum, endOffset: u32, handle: u64, flags: Flags)

  /** `BlockMeta::Deserialize` into a fresh block: the size stays 0 until the recipe is rebuilt. */
  function FromBlockRecord(r: BlockRecord): BlockMeta
  {
    FreshBlockMeta(r.cksum).(endOffset := r.endOffset, handle := r.handle, flags := r.flags)
  }

  function BlockRecords(recipe: seq<BlockMeta>): (rs: seq<BlockRecord>)
    ensures |rs| == |recipe|
  {
    seq(|recipe|, i requires 0 <= i < |recipe| => recipe[i].Record())
  }

  function BlockRecordEnds(records: seq<BlockRecord>): (ends: seq<int>)
    ensures |ends| == |records|
  {
    seq(|records|, i requires 0 <= i < |records| => records[i].endOffset as int)
  }

  /**
   * The block recipe `SegmentMeta::DeserializeRecipe` produces: every record,
   * with its size rebuilt as `end_offset[i] - end_offset[i-1]` in 32-bit
   * unsigned arithmetic.
   */
  function RebuildBlockRecipe(records: seq<BlockRecord>): (recipe: seq<BlockMeta>)
    ensures |recipe| == |records|
  {
    var ends := BlockRecordEnds(records);
    seq(|records|, i requires 0 <= i < |records| =>
      FromBlockRecord(records[i]).(size := Offsets.Delta(ends, i, TWO_32)))
  }

  function BlockSizes(recipe: seq<BlockMeta>): (s: seq<int>)
    ensures |s| == |recipe|
  {
    seq(|recipe|, i requires 0 <= i < |recipe| => recipe[i].size as int)
  }

  function BlockEnds(recipe: seq<BlockMeta>): (s: seq<int>)
    ensures |s| == |recipe|
  {
    seq(|recipe|, i requires 0 <= i < |recipe| => recipe[i].endOffset as int)
  }

  /** Each block's end offset is the 32-bit running total of the block sizes up to it. */
  ghost predicate CumulativeBlocks(recipe: seq<BlockMeta>)
  {
    Offsets.Cumulative(BlockSizes(recipe), BlockEnds(recipe), TWO_32)
  }

  /**
   * Round trip of a block recipe: written as {cksum, end_offset, handle,
   * flags} and read back, every block is restored with its size, its
   * checksum, its handle and its flags; only the payload buffer is not part
   * of the recipe.
   */
  lemma BlockRecipeRoundTrip(recipe: seq<BlockMeta>)
    requires CumulativeBlocks(recipe)
    ensures forall i :: 0 <= i < |recipe| ==>
      RebuildBlockRecipe(BlockRecords(recipe))[i] == recipe[i].(data := None, isAllocated := false)
  {
    var records := BlockRecords(recipe);
    assert BlockRecordEnds(records) == BlockEnds(recipe);
    Offsets.DeltasRecoverSizes(BlockSizes(recipe), BlockEnds(recipe), TWO_32);
    forall i | 0 <= i < |recipe|
      ensures RebuildBlockRecipe(records)[i] == recipe[i].(data := None, isAllocated := false)
    {
      assert Offsets.Deltas(BlockEnds(recipe), TWO_32)[i] == BlockSizes(recipe)[i];
    }
  }

  /** For non-decreasing end offsets the rebuilt block sizes add up to the last end offset. */
  lemma RebuiltBlockSizesSum(records: seq<BlockRecord>)
    requires |records| > 0 && Offsets.NonDecreasing(BlockRecordEnds(records))
    ensures Offsets.Sum(BlockSizes(RebuildBlockRecipe(records))) == records[|records| - 1].endOffset
  {
    var ends := BlockRecordEnds(records);
    assert BlockSizes(RebuildBlockRecipe(records)) == Offsets.Deltas(ends, TWO_32);
    Offsets.DeltasSumToLastEnd(ends, TWO_32);
  }

  /** A block end offset smaller than the previous one wraps around 2^32 instead of being rejected. */
  lemma RebuiltBlockSizeWraps(records: seq<BlockRecord>, i: nat)
    requires 0 < i < |records| && records[i].endOffset < records[i - 1].endOffset
    ensures RebuildBlockRecipe(records)[i].size
         == records[i].endOffset - records[i - 1].endOffset + TWO_32
  {
    Offsets.DecreasingOffsetWraps(BlockRecordEnds(records), i, TWO_32);
  }

  // --------------------------------------------------------------- segments

  datatype SegmentMeta = SegmentMeta(
    recipe: seq<BlockMeta>,      // the segment's block list
    endOffset: u64,              // offset right after the segment within its snapshot
    size: u32,
    cksum: Checksum,             // hash of the sequence of its block hashes
    handle: u64)                 // where the block list is stored
  {
    /** What `SegmentMeta::Serialize` writes: neither the size nor the block list. */
    function Record(): SegmentRecord
    {
      SegmentRecord(cksum, endOffset, handle)
    }

    /** `GetBlockSize`: the size of the block at `index`, 0 when there is none. */
    function GetBlockSize(index: nat): (r: u32)
      ensures index < |recipe| ==> r == recipe[index].size
      ensures index >= |recipe| ==> r == 0
    {
      if index < |recipe| then recipe[index].size else 0
    }
  }

  /**
   * `SegmentMeta::DeserializeRecipe`: the records are read into fresh blocks,
   * then a loop carrying the previous end offset rewrites each block's size.
   */
  method DeserializeBlockRecipe(sm: SegmentMeta, records: seq<BlockRecord>) returns (r: SegmentMeta)
    ensures r == sm.(recipe := RebuildBlockRecipe(records))
  {
    var recipe := seq(|records|, i requires 0 <= i < |records| => FromBlockRecord(records[i]));
    if |recipe| == 0 {
      return sm.(recipe := recipe);
    }
    ghost var ends := BlockRecordEnds(records);
    var lastEnding: u32 := 0;
    var i := 0;
    while i < |recipe|
      invariant 0 <= i <= |recipe| == |records|
      invariant lastEnding == if i == 0 then 0 else records[i - 1].endOffset
      invariant forall j :: 0 <= j < i ==> recipe[j] == RebuildBlockRecipe(records)[j]
      invariant forall j :: i <= j < |recipe| ==> recipe[j] == FromBlockRecord(records[j])
    {
      recipe := recipe[i := recipe[i].(size := (recipe[i].endOffset - lastEnding) % TWO_32)];
      assert recipe[i].size == Offsets.Delta(ends, i, TWO_32);
      lastEnding := recipe[i].endOffset;
      i := i + 1;
    }
    r := sm.(recipe := recipe);
  }

  /**
   * `BuildIndex` result: the index maps exactly the recipe's checksums, each
   * to the position of the LAST block carrying it.
   */
  ghost predicate IndexesLastOccurrence(recipe: seq<BlockMeta>, index: map<Checksum, nat>)
  {
    (forall c :: c in index <==> exists i :: 0 <= i < |recipe| && recipe[i].cksum == c) &&
    (forall c :: c in index ==>
       index[c] < |recipe| && recipe[index[c]].cksum == c &&
       forall j :: index[c] < j < |recipe| ==> recipe[j].cksum != c)
  }

  /** `SegmentMeta::BuildIndex`: clear the map, then map each block's checksum to its position in order. */
  method BuildIndex(recipe: seq<BlockMeta>) returns (index: map<Checksum, nat>)
    ensures IndexesLastOccurrence(recipe, index)
  {
    index := map[];
    var i := 0;
    while i < |recipe|
      invariant 0 <= i <= |recipe|
      invariant forall c :: c in index <==> exists k :: 0 <= k < i && recipe[k].cksum == c
      invariant forall c :: c in index ==>
        index[c] < i && recipe[index[c]].cksum == c &&
        forall j :: index[c] < j < i ==> recipe[j].cksum != c
    {
      index := index[recipe[i].cksum := i];
      i := i + 1;
    }
  }

  /** `SegmentMeta::SearchBlock`: the position of the indexed block, None for NULL. */
  function SearchBlock(index: map<Checksum, nat>, c: Checksum): (r: Option<nat>)
    ensures r.Some? <==> c in index
  {
    if c in index then Some(index[c]) else None
  }

  /**
   * After `BuildIndex`, a search finds a block iff some block of the recipe
   * has that checksum, and then it is the last such block.
   */
  lemma SearchAfterBuildIndex(recipe: seq<BlockMeta>, index: map<Checksum, nat>, c: Checksum)
    requires IndexesLastOccurrence(recipe, index)
    ensures SearchBlock(index, c).Some? <==> exists i :: 0 <= i < |recipe| && recipe[i].cksum == c
    ensures SearchBlock(index, c).Some? ==>
      var k := SearchBlock(index, c).value;
      k < |recipe| && recipe[k].cksum == c &&
      forall j :: k < j < |recipe| ==> recipe[j].cksum != c
  {
  }

  /** One entry of a snapshot recipe as written to disk. */
  datatype SegmentRecord = SegmentRecord(cksum: Checksum, endOffset: u64, handle: u64)

  /** `SegmentMeta::Deserialize` into a fresh segment: no block list yet, size rebuilt later. */
  function FromSegmentRecord(r: SegmentRecord): SegmentMeta
  {
    SegmentMeta([], r.endOffset, 0, r.cksum, r.handle)
  }

  function SegmentRecords(recipe: seq<SegmentMeta>): (rs: seq<SegmentRecord>)
    ensures |rs| == |recipe|
  {
    seq(|recipe|, i requires 0 <= i < |recipe| => recipe[i].Record())
  }

  function SegmentRecordEnds(records: seq<SegmentRecord>): (ends: seq<int>)
    ensures |ends| == |records|
  {
    seq(|records|, i requires 0 <= i < |records| => records[i].endOffset as int)
  }

  /**
   * The snapshot recipe `SnapshotMeta::DeserializeRecipe` produces: each size
   * is the 64-bit difference of consecutive end offsets, stored into the
   * 32-bit size field.
   */
  function RebuildSegmentRecipe(records: seq<SegmentRecord>): (recipe: seq<SegmentMeta>)
    ensures |recipe| == |records|
  {
    var ends := SegmentRecordEnds(records);
    seq(|records|, i requires 0 <= i < |records| =>
      FromSegmentRecord(records[i]).(size := Offsets.Delta(ends, i, TWO_64) % TWO_32))
  }

  function SegmentSizes(recipe: seq<SegmentMeta>): (s: seq<int>)
    ensures |s| == |recipe|
  {
    seq(|recipe|, i requires 0 <= i < |recipe| => recipe[i].size as int)
  }

  function SegmentEnds(recipe: seq<SegmentMeta>): (s: seq<int>)
    ensures |s| == |recipe|
  {
    seq(|recipe|, i requires 0 <= i < |recipe| => recipe[i].endOffset as int)
  }

  /** Each segment's end offset is the 64-bit running total of the segment sizes up to it. */
  ghost predicate CumulativeSegments(recipe: seq<SegmentMeta>)
  {
    Offsets.Cumulative(SegmentSizes(recipe), SegmentEnds(recipe), TWO_64)
  }

  /** The empty recipe is cumulative, with a total size of 0. */
  lemma EmptyRecipeCumulative()
    ensures CumulativeSegments([]) && Offsets.Sum(SegmentSizes([])) == 0
  {
    assert SegmentSizes([]) == [];
  }

  /**
   * Round trip of a snapshot recipe: written as {cksum, end_offset, handle}
   * and read back, each entry gets back its checksum, its handle, its end
   * offset and the size it was added with; its block list is stored apart.
   */
  lemma SegmentRecipeRoundTrip(recipe: seq<SegmentMeta>)
    requires CumulativeSegments(recipe)
    ensures forall i :: 0 <= i < |recipe| ==>
      RebuildSegmentRecipe(SegmentRecords(recipe))[i] == recipe[i].(recipe := [])
  {
    var records := SegmentRecords(recipe);
    assert SegmentRecordEnds(records) == SegmentEnds(recipe);
    Offsets.DeltasRecoverSizes(SegmentSizes(recipe), SegmentEnds(recipe), TWO_64);
    forall i | 0 <= i < |recipe|
      ensures RebuildSegmentRecipe(records)[i] == recipe[i].(recipe := [])
    {
      assert Offsets.Deltas(SegmentEnds(recipe), TWO_64)[i] == SegmentSizes(recipe)[i];
      Offsets.DivModUnique(recipe[i].size, 0, recipe[i].size, TWO_32);
    }
  }

  // -------------------------------------------------------------- snapshots

  /** The fixed header of a snapshot metadata file. */
  datatype Header = Header(vmId: string, snapshotId: string, size: u64)

  class SnapshotMeta {
    var recipe: seq<SegmentMeta>
    var size: u64                 // overall size of the snapshot in bytes
    var vmId: string
    var snapshotId: string

    /**
     * The implicit default construction followed by the assignment of the
     * ids: the recipe is empty and `size` holds whatever `staleSize` the
     * uninitialised field had. Only a size of 0 (which
     * `SnapshotControl::Init` sets) makes the metadata cumulative.
     */
    constructor (vmId: string, snapshotId: string, staleSize: u64)
      ensures recipe == [] && size == staleSize
      ensures this.vmId == vmId && this.snapshotId == snapshotId
      ensures Cumulative() <==> staleSize == 0
    {
      recipe := [];
      size := staleSize;
      this.vmId := vmId;
      this.snapshotId := snapshotId;
    }

    /** The invariant of a recipe grown only by `AddSegment`: offsets are running totals and `size` the total. */
    ghost predicate Cumulative()
      reads this
    {
      CumulativeSegments(recipe) && size == Offsets.Sum(SegmentSizes(recipe)) % TWO_64
    }

    /** `GetSegmentSize`: the size of the segment at `index`, 0 when there is none. */
    function GetSegmentSize(index: nat): (r: u32)
      reads this
      ensures index < |recipe| ==> r == recipe[index].size
      ensures index >= |recipe| ==> r == 0
    {
      if index < |recipe| then recipe[index].size else 0
    }

    /**
     * `AddSegment`: append one entry, grow the 64-bit size by the segment's
     * size, and make the new entry's end offset the new size.
     */
    method AddSegment(sm: SegmentMeta)
      modifies this
      ensures recipe == old(recipe) + [sm.(endOffset := size)]
      ensures size == (old(size) + sm.size) % TWO_64
      ensures vmId == old(vmId) && snapshotId == old(snapshotId)
      ensures old(Cumulative()) ==> Cumulative()
    {
      ghost var wasCumulative := Cumulative();
      ghost var before := recipe;
      recipe := recipe + [sm];
      size := (size + recipe[|recipe| - 1].size) % TWO_64;
      recipe := recipe[|recipe| - 1 := recipe[|recipe| - 1].(endOffset := size)];
      if wasCumulative {
        AppendKeepsCumulative(before, sm, size);
      }
    }

    /** `SnapshotMeta::Serialize`: the header alone. */
    function SerializeHeader(): (h: Header)
      reads this
      ensures h.vmId == vmId && h.snapshotId == snapshotId && h.size == size
    {
      Header(vmId, snapshotId, size)
    }

    /** `SnapshotMeta::Deserialize`: the header fields; the recipe is read separately. */
    method DeserializeHeader(h: Header)
      modifies this
      ensures SerializeHeader() == h && recipe == old(recipe)
    {
      vmId, snapshotId, size := h.vmId, h.snapshotId, h.size;
    }

    /** `SerializeRecipe`: one record per entry, in order. */
    function SerializeRecipe(): (rs: seq<SegmentRecord>)
      reads this
      ensures rs == SegmentRecords(recipe)
    {
      SegmentRecords(recipe)
    }

    /** `SnapshotMeta::DeserializeRecipe`: read the records, then rebuild every size from the offsets. */
    method DeserializeRecipe(records: seq<SegmentRecord>)
      modifies this
      ensures recipe == RebuildSegmentRecipe(records)
      ensures size == old(size) && vmId == old(vmId) && snapshotId == old(snapshotId)
    {
      var r := seq(|records|, i requires 0 <= i < |records| => FromSegmentRecord(records[i]));
      if |r| == 0 {
        recipe := r;
        return;
      }
      ghost var ends := SegmentRecordEnds(records);
      var lastEnding: u64 := 0;
      var i := 0;
      while i < |r|
        invariant 0 <= i <= |r| == |records|
        invariant lastEnding == if i == 0 then 0 else records[i - 1].endOffset
        invariant forall j :: 0 <= j < i ==> r[j] == RebuildSegmentRecipe(records)[j]
        invariant forall j :: i <= j < |r| ==> r[j] == FromSegmentRecord(records[j])
      {
        r := r[i := r[i].(size := ((r[i].endOffset - lastEnding) % TWO_64) % TWO_32)];
        assert r[i].size == Offsets.Delta(ends, i, TWO_64) % TWO_32;
        lastEnding := r[i].endOffset;
        i := i + 1;
      }
      recipe := r;
    }
  }

  /** Appending a segment the way `AddSegment` does keeps the running-total invariant. */
  lemma AppendKeepsCumulative(recipe: seq<SegmentMeta>, sm: SegmentMeta, newSize: u64)
    requires CumulativeSegments(recipe)
    requires newSize == (Offsets.Sum(SegmentSizes(recipe)) % TWO_64 + sm.size) % TWO_64
    ensures CumulativeSegments(recipe + [sm.(endOffset := newSize)])
    ensures newSize == Offsets.Sum(SegmentSizes(recipe + [sm.(endOffset := newSize)])) % TWO_64
  {
    var r' := recipe + [sm.(endOffset := newSize)];
    var sizes := SegmentSizes(recipe);
    assert SegmentSizes(r') == sizes + [sm.size as int];
    Offsets.SumAppend(sizes, sm.size);
    Offsets.ModAdd(Offsets.Sum(sizes), sm.size, TWO_64);
    forall i | 0 <= i < |r'|
      ensures SegmentEnds(r')[i] == Offsets.Sum(SegmentSizes(r')[..i + 1]) % TWO_64
    {
      if i < |recipe| {
        assert SegmentSizes(r')[..i + 1] == sizes[..i + 1];
        assert SegmentEnds(r')[i] == SegmentEnds(recipe)[i];
      } else {
        assert SegmentSizes(r')[..i + 1] == sizes + [sm.size as int];
      }
    }
  }

  /**
   * A recipe grown by `AddSegment` from an empty snapshot, written with
   * `SerializeRecipe` and read back with `DeserializeRecipe`, gives back
   * every segment's size, so `GetSegmentSize` answers as before the reload.
   */
  lemma ReloadKeepsSegmentSizes(recipe: seq<SegmentMeta>, index: nat)
    requires CumulativeSegments(recipe) && index < |recipe|
    ensures RebuildSegmentRecipe(SegmentRecords(recipe))[index].size == recipe[index].size
    ensures RebuildSegmentRecipe(SegmentRecords(recipe))[index].cksum == recipe[index].cksum
    ensures RebuildSegmentRecipe(SegmentRecords(recipe))[index].handle == recipe[index].handle
  {
    SegmentRecipeRoundTrip(recipe);
  }
}
