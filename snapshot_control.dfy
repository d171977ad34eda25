/**
 * Snapshot orchestration: the storage paths derived from the VM and
 * snapshot ids, the parsing of a trace-file path into those ids, and the
 * `SnapshotControl` object that saves and loads snapshot metadata, segment
 * recipes, block payloads and the pair of bloom filters through its
 * collaborators. The filesystem and the append store are injected objects
 * instead of process-wide singletons.
 */
module Control {
  import opened Bytes
  import opened Maybe
  import opened StdString
  import opened SnapshotTypes
  import opened Collaborators
  import Offsets

  // ------------------------------------------------------------------ paths

  const BASE_PATH: string := "root"

  /** The VM directory: the VM id as a directory of the base directory. */
  function VmPath(vmId: string): (p: string)
    ensures |p| == |BASE_PATH| + 2 + |vmId|
    ensures p[0] == '/' && p[1..|BASE_PATH| + 1] == BASE_PATH && p[|BASE_PATH| + 1] == '/'
    ensures p[|BASE_PATH| + 2..] == vmId
  {
    "/" + BASE_PATH + "/" + vmId
  }

  /** `name` lies directly in the VM directory of `vmId`. */
  ghost predicate InVmDir(p: string, vmId: string, name: string)
  {
    var dir := VmPath(vmId);
    |p| == |dir| + 1 + |name| && p[..|dir|] == dir && p[|dir|] == '/' && p[|dir| + 1..] == name
  }

  /** The VM metadata file, `vm.meta` in the VM directory. */
  function VmMetaPath(vmId: string): (p: string)
    ensures InVmDir(p, vmId, "vm.meta")
  {
    VmPath(vmId) + "/vm.meta"
  }

  /** The append store of the VM, `appendstore` in the VM directory. */
  function StorePath(vmId: string): (p: string)
    ensures InVmDir(p, vmId, "appendstore")
  {
    VmPath(vmId) + "/" + "appendstore"
  }

  /** The snapshot metadata file, `<snapshot>.meta` in the VM directory. */
  function SnapshotMetaPath(vmId: string, ssId: string): (p: string)
    ensures InVmDir(p, vmId, ssId + ".meta")
  {
    VmPath(vmId) + "/" + ssId + ".meta"
  }

  /** The primary filter file, `<snapshot>.bm1` in the VM directory. */
  function PrimaryFilterPath(vmId: string, ssId: string): (p: string)
    ensures InVmDir(p, vmId, ssId + ".bm1")
  {
    VmPath(vmId) + "/" + ssId + ".bm1"
  }

  /** The secondary filter file, `<snapshot>.bm2` in the VM directory. */
  function SecondaryFilterPath(vmId: string, ssId: string): (p: string)
    ensures InVmDir(p, vmId, ssId + ".bm2")
  {
    VmPath(vmId) + "/" + ssId + ".bm2"
  }

  /** The five files of one snapshot never share a path with one another. */
  lemma SnapshotPathsDistinct(vmId: string, ssId: string)
    ensures PrimaryFilterPath(vmId, ssId) != SecondaryFilterPath(vmId, ssId)
    ensures SnapshotMetaPath(vmId, ssId) != PrimaryFilterPath(vmId, ssId)
    ensures SnapshotMetaPath(vmId, ssId) != SecondaryFilterPath(vmId, ssId)
    ensures StorePath(vmId) != SnapshotMetaPath(vmId, ssId)
    ensures StorePath(vmId) != VmMetaPath(vmId)
  {
    var p, s := PrimaryFilterPath(vmId, ssId), SecondaryFilterPath(vmId, ssId);
    var m := SnapshotMetaPath(vmId, ssId);
    assert p[|p| - 1] == '1' && s[|s| - 1] == '2' && m[|m| - 1] == 'a';
    var st, vm := StorePath(vmId), VmMetaPath(vmId);
    assert st[|st| - 1] == 'e' && vm[|vm| - 1] == 'a';
  }

  /** Within one VM, distinct snapshot ids get distinct metadata paths. */
  lemma {:induction false} SnapshotMetaPathInjective(vmId: string, s1: string, s2: string)
    requires SnapshotMetaPath(vmId, s1) == SnapshotMetaPath(vmId, s2)
    ensures s1 == s2
  {
    var pre := VmPath(vmId) + "/";
    var m1, m2 := SnapshotMetaPath(vmId, s1), SnapshotMetaPath(vmId, s2);
    assert m1 == pre + s1 + ".meta" && m2 == pre + s2 + ".meta";
    assert |s1| == |s2|;
    assert s1 == m1[|pre| .. |pre| + |s1|];
    assert s2 == m2[|pre| .. |pre| + |s2|];
  }

  /** The only snapshot whose metadata file is the VM's own metadata file is the one named "vm". */
  lemma {:induction false} SnapshotMetaIsVmMetaIff(vmId: string, ssId: string)
    ensures SnapshotMetaPath(vmId, ssId) == VmMetaPath(vmId) <==> ssId == "vm"
  {
    var pre := VmPath(vmId) + "/";
    assert SnapshotMetaPath(vmId, ssId) == pre + ssId + ".meta";
    assert VmMetaPath(vmId) == pre + "vm" + ".meta";
    if SnapshotMetaPath(vmId, ssId) == VmMetaPath(vmId) {
      SnapshotMetaPathInjective(vmId, ssId, "vm");
    }
  }

  // ------------------------------------------------------ trace-path parsing

  datatype TraceIds = TraceIds(osType: string, diskType: string, vmId: string, snapshotId: string)

  /**
   * The characters strictly between two positions found by a search:
   * `substr(from + 1, to - from - 1)` with `size_t` wrap-around, where
   * `from` is a position of `t` or `npos` (so `from + 1` wraps to 0).
   */
  function Between(t: string, from: u64, to: u64): (r: string)
    requires |t| < NPOS && (from == NPOS || from < |t|)
    ensures |r| <= |t|
  {
    var pos := Add(from, 1);
    assert pos == (if from == NPOS then 0 else from + 1);
    Substr(t, pos, Sub(Sub(to, from), 1))
  }

  /**
   * `ParseTraceFile`: the basename starts after the last '/', the disk and
   * OS types are the two directory components before it, the VM id runs up
   * to the first '.' of the basename and the snapshot id from there to the
   * last '-' of the path; positions are `size_t` and wrap like the original's.
   */
  function ParseTracePath(t: string): TraceIds
    requires |t| < NPOS
  {
    var name := RFind(t, '/', NPOS);
    var disk := RFind(t, '/', Sub(name, 1));
    var os := RFind(t, '/', Sub(disk, 1));
    var vm := Find(t, '.', name);
    var ss := FindLastOf(t, '-');
    TraceIds(Between(t, os, disk), Between(t, disk, name), Between(t, name, vm), Between(t, vm, ss))
  }

  lemma RFindAt(t: string, c: char, pos: u64, k: nat)
    requires |t| < NPOS && k < |t| && k <= pos && t[k] == c
    requires forall j :: k < j < |t| && j <= pos ==> t[j] != c
    ensures RFind(t, c, pos) == k
  {
  }

  lemma FindAt(t: string, c: char, pos: u64, k: nat)
    requires |t| < NPOS && pos <= k < |t| && t[k] == c
    requires forall j :: pos <= j < k ==> t[j] != c
    ensures Find(t, c, pos) == k
  {
  }

  lemma BetweenSlice(t: string, a: nat, b: nat)
    requires |t| < NPOS && a < b < |t|
    ensures Between(t, a, b) == t[a + 1 .. b]
  {
    assert Sub(Sub(b, a), 1) == b - a - 1;
  }

  /** `Between` holds no `c` when no position it covers does. */
  lemma BetweenAvoids(t: string, from: u64, to: u64, c: char)
    requires |t| < NPOS && (from == NPOS || from < |t|)
    requires forall j :: Add(from, 1) <= j < |t| && j - Add(from, 1) < Sub(Sub(to, from), 1) ==> t[j] != c
    ensures c !in Between(t, from, to)
  {
    var r := Between(t, from, to);
    var pos := Add(from, 1);
    forall k | 0 <= k < |r| ensures r[k] != c {
      assert r[k] == t[pos + k];
    }
  }

  /** Nothing after `from` (everything, for `npos`) is a `c`: `Between` holds none, wherever it ends. */
  lemma BetweenAfterLast(t: string, from: u64, to: u64, c: char)
    requires |t| < NPOS && (from == NPOS || from < |t|)
    requires forall j :: 0 <= j < |t| && (from == NPOS || from < j) ==> t[j] != c
    ensures c !in Between(t, from, to)
  {
    BetweenAvoids(t, from, to, c);
  }

  /** Nothing strictly between `from` (or the start, for `npos`) and `to` is a `c`: `Between` holds none. */
  lemma BetweenBefore(t: string, from: u64, to: u64, c: char)
    requires |t| < NPOS && to < |t| && (from == NPOS || from < to)
    requires forall j :: 0 <= j < to && (from == NPOS || from < j) ==> t[j] != c
    ensures c !in Between(t, from, to)
  {
    if from == NPOS {
      assert Sub(Sub(to, from), 1) == to;
    } else {
      assert Sub(Sub(to, from), 1) == to - from - 1;
    }
    BetweenAvoids(t, from, to, c);
  }

  /** Searching back from any position at or past the end finds the last `c`. */
  lemma RFindPastEnd(t: string, c: char, pos: u64)
    requires |t| < NPOS && pos >= |t|
    ensures RFind(t, c, pos) == RFind(t, c, NPOS)
  {
  }

  /**
   * The disk type holds no '/': it lies between the last two '/', or, with
   * fewer of them, the wrapped positions make it the part after the only
   * '/' at position 0, the part before the only '/', or the whole path.
   */
  lemma DiskTypeIsComponent(t: string, name: u64, disk: u64)
    requires |t| < NPOS && name == RFind(t, '/', NPOS) && disk == RFind(t, '/', Sub(name, 1))
    ensures '/' !in Between(t, disk, name)
  {
    if name == NPOS || name == 0 {
      RFindPastEnd(t, '/', Sub(name, 1));
      BetweenAfterLast(t, name, name, '/');
    } else {
      BetweenBefore(t, disk, name, '/');
    }
  }

  /** The OS type holds no '/', by the same cases one '/' further back. */
  lemma OsTypeIsComponent(t: string, name: u64, disk: u64, os: u64)
    requires |t| < NPOS && name == RFind(t, '/', NPOS) && disk == RFind(t, '/', Sub(name, 1))
    requires os == RFind(t, '/', Sub(disk, 1))
    ensures '/' !in Between(t, os, disk)
  {
    if disk == NPOS || disk == 0 {
      RFindPastEnd(t, '/', Sub(disk, 1));
      BetweenAfterLast(t, name, disk, '/');
    } else {
      BetweenBefore(t, os, disk, '/');
    }
  }

  /**
   * The OS type, the disk type and the VM id that `ParseTraceFile` cuts
   * out are single path components: none holds a '/', whatever the path,
   * including one with fewer than three '/' where the positions wrap.
   */
  lemma ParsedIdsAreComponents(t: string)
    requires |t| < NPOS
    ensures var ids := ParseTracePath(t);
            '/' !in ids.osType && '/' !in ids.diskType && '/' !in ids.vmId
  {
    var name := RFind(t, '/', NPOS);
    var disk := RFind(t, '/', Sub(name, 1));
    var os := RFind(t, '/', Sub(disk, 1));
    BetweenAfterLast(t, name, Find(t, '.', name), '/');
    DiskTypeIsComponent(t, name, disk);
    OsTypeIsComponent(t, name, disk, os);
  }

  /**
   * A trace path `<...>/<os>/<disk>/<vm>.<snapshot>-<tail>` yields exactly
   * those four ids: `a`, `b`, `c` are the positions of its last three '/',
   * `d` the first '.' after the last '/', `e` the last '-'.
   */
  lemma ParseWellFormedTracePath(t: string, a: nat, b: nat, c: nat, d: nat, e: nat)
    requires |t| < NPOS && a < b < c < d < e < |t|
    requires t[a] == '/' && t[b] == '/' && t[c] == '/' && t[d] == '.' && t[e] == '-'
    requires forall j :: a < j < |t| && j != b && j != c ==> t[j] != '/'
    requires forall j :: c < j < d ==> t[j] != '.'
    requires forall j :: e < j < |t| ==> t[j] != '-'
    ensures ParseTracePath(t) == TraceIds(t[a + 1 .. b], t[b + 1 .. c], t[c + 1 .. d], t[d + 1 .. e])
  {
    RFindAt(t, '/', NPOS, c);
    RFindAt(t, '/', Sub(c, 1), b);
    RFindAt(t, '/', Sub(b, 1), a);
    FindAt(t, '.', c, d);
    RFindAt(t, '-', NPOS, e);
    BetweenSlice(t, a, b);
    BetweenSlice(t, b, c);
    BetweenSlice(t, c, d);
    BetweenSlice(t, d, e);
  }

  // --------------------------------------------------------- orchestration

  /** Configuration constants of the filter sizing, defined in headers this model does not include. */
  datatype FilterConfig = FilterConfig(avgBlockSize: nat, numFuncs: u32)

  /** The block list a stored blob holds, read back the way the recipe loader reads it. */
  function StoredRecords(b: Option<Blob>): (rs: seq<BlockRecord>)
    ensures b.Some? && b.value.BlockList? ==> rs == b.value.records
    ensures !(b.Some? && b.value.BlockList?) ==> rs == []
  {
    if b.Some? && b.value.BlockList? then b.value.records else []
  }

  /** The checksums of a block list. */
  function Checksums(recipe: seq<BlockMeta>): (cs: set<Checksum>)
    ensures forall i :: 0 <= i < |recipe| ==> recipe[i].cksum in cs
    ensures forall c :: c in cs ==> exists i :: 0 <= i < |recipe| && recipe[i].cksum == c
  {
    set i | 0 <= i < |recipe| :: recipe[i].cksum
  }

  lemma ChecksumsSnoc(recipe: seq<BlockMeta>, i: nat)
    requires i < |recipe|
    ensures Checksums(recipe[..i + 1]) == Checksums(recipe[..i]) + {recipe[i].cksum}
  {
    assert forall k :: 0 <= k < i ==> recipe[..i + 1][k] == recipe[..i][k];
  }

  /** A filter after every checksum of `cs` has been added to it. */
  function Extended(f: BloomFilter, cs: set<Checksum>): BloomFilter
  {
    f.(added := f.added + cs, positives := f.positives + cs)
  }

  lemma ExtendedAdd(f: BloomFilter, cs: set<Checksum>, c: Checksum)
    ensures Extended(f, cs).AddElement(c) == Extended(f, cs + {c})
  {
  }

  class SnapshotControl {
    var traceFile: string
    var osType: string
    var diskType: string
    var vmPath: string
    var vmMetaPath: string
    var storePath: string
    var ssMetaPath: string
    var primaryFilterPath: string
    var secondaryFilterPath: string
    const ssMeta: SnapshotMeta
    var vmMeta: VmMeta
    var primary: Option<BloomFilter>
    var secondary: Option<BloomFilter>
    var store: AppendStore?
    const fs: FileSystem

    /** The trace names and every derived path, in declaration order. */
    ghost function Names(): seq<string>
      reads this
    {
      [traceFile, osType, diskType, vmPath, vmMetaPath, storePath, ssMetaPath, primaryFilterPath, secondaryFilterPath]
    }

    /** The paths `Init` derives from the ids in the snapshot metadata. */
    ghost predicate PathsDerived()
      reads this, ssMeta
    {
      var vm, ss := ssMeta.vmId, ssMeta.snapshotId;
      vmPath == VmPath(vm) && vmMetaPath == VmMetaPath(vm) && storePath == StorePath(vm) &&
      ssMetaPath == SnapshotMetaPath(vm, ss) &&
      primaryFilterPath == PrimaryFilterPath(vm, ss) && secondaryFilterPath == SecondaryFilterPath(vm, ss)
    }

    /**
     * Construction from a trace-file path: parse the ids out of it, then
     * `Init`, which zeroes whatever `staleSize` the snapshot size held.
     */
    constructor FromTraceFile(traceFile: string, fs: FileSystem, staleSize: u64)
      requires |traceFile| < NPOS
      ensures this.traceFile == traceFile && this.fs == fs && fresh(ssMeta)
      ensures TraceIds(osType, diskType, ssMeta.vmId, ssMeta.snapshotId) == ParseTracePath(traceFile)
      ensures PathsDerived() && ssMeta.recipe == [] && ssMeta.size == 0 && ssMeta.Cumulative()
      ensures store == null && primary == None && secondary == None
    {
      this.traceFile := traceFile;
      osType, diskType := "", "";
      ssMeta := new SnapshotMeta("", "", staleSize);
      this.fs := fs;
      primary, secondary := None, None;
      vmMeta := VmMeta(0, 0);
      new;
      ParseTraceFile();
      Init();
      EmptyRecipeCumulative();
    }

    /** `ParseTraceFile`: set the OS type, the disk type and both ids from the trace-file path. */
    method ParseTraceFile()
      requires |traceFile| < NPOS
      modifies this, ssMeta
      ensures traceFile == old(traceFile) && ssMeta.recipe == old(ssMeta.recipe) && ssMeta.size == old(ssMeta.size)
      ensures TraceIds(osType, diskType, ssMeta.vmId, ssMeta.snapshotId) == ParseTracePath(traceFile)
      ensures store == old(store) && primary == old(primary) && secondary == old(secondary) && vmMeta == old(vmMeta)
      ensures Names()[3..] == old(Names()[3..])
    {
      var ids := ParseTracePath(traceFile);
      osType, diskType := ids.osType, ids.diskType;
      ssMeta.vmId, ssMeta.snapshotId := ids.vmId, ids.snapshotId;
    }

    /** Construction from explicit ids, then `Init`, which zeroes whatever `staleSize` the snapshot size held. */
    constructor (osType: string, diskType: string, vmId: string, ssId: string, fs: FileSystem, staleSize: u64)
      ensures this.osType == osType && this.diskType == diskType && this.fs == fs && fresh(ssMeta)
      ensures ssMeta.vmId == vmId && ssMeta.snapshotId == ssId
      ensures PathsDerived() && ssMeta.recipe == [] && ssMeta.size == 0 && ssMeta.Cumulative()
      ensures store == null && primary == None && secondary == None
    {
      this.osType, this.diskType := osType, diskType;
      traceFile := "";
      ssMeta := new SnapshotMeta(vmId, ssId, staleSize);
      this.fs := fs;
      primary, secondary := None, None;
      vmMeta := VmMeta(0, 0);
      new;
      Init();
    }

    /** `Init`: derive every path from the ids, zero the snapshot size and drop the store. */
    method Init()
      modifies this, ssMeta
      ensures PathsDerived() && ssMeta.size == 0 && store == null
      ensures ssMeta.recipe == old(ssMeta.recipe)
      ensures ssMeta.vmId == old(ssMeta.vmId) && ssMeta.snapshotId == old(ssMeta.snapshotId)
      ensures traceFile == old(traceFile) && osType == old(osType) && diskType == old(diskType)
      ensures vmMeta == old(vmMeta) && primary == old(primary) && secondary == old(secondary)
    {
      var vm, ss := ssMeta.vmId, ssMeta.snapshotId;
      vmPath := VmPath(vm);
      vmMetaPath := VmMetaPath(vm);
      storePath := StorePath(vm);
      ssMetaPath := SnapshotMetaPath(vm, ss);
      primaryFilterPath := PrimaryFilterPath(vm, ss);
      secondaryFilterPath := SecondaryFilterPath(vm, ss);
      ssMeta.size := 0;
      store := null;
    }

    method SetAppendStore(pas: AppendStore?)
      modifies this
      ensures store == pas
      ensures Names() == old(Names()) && vmMeta == old(vmMeta)
      ensures primary == old(primary) && secondary == old(secondary)
    {
      store := pas;
    }

    /**
     * `LoadSnapshotMeta`: false when the metadata file is missing; otherwise
     * the header and then the recipe are read from it.
     */
    method LoadSnapshotMeta() returns (ok: bool)
      modifies ssMeta
      ensures ok <==> ssMetaPath in fs.files
      ensures ok && fs.files[ssMetaPath].SnapshotMetaFile? ==>
        ssMeta.SerializeHeader() == fs.files[ssMetaPath].header &&
        ssMeta.recipe == RebuildSegmentRecipe(fs.files[ssMetaPath].recipe)
      ensures !(ok && fs.files[ssMetaPath].SnapshotMetaFile?) ==>
        ssMeta.recipe == old(ssMeta.recipe) && ssMeta.SerializeHeader() == old(ssMeta.SerializeHeader())
    {
      if ssMetaPath !in fs.files {
        return false;
      }
      var image := fs.files[ssMetaPath];
      if image.SnapshotMetaFile? {
        ssMeta.DeserializeHeader(image.header);
        ssMeta.DeserializeRecipe(image.recipe);
      }
      return true;
    }

    /**
     * `SaveSnapshotMeta`: make sure the VM directory exists, remove an
     * existing metadata file, and write header and recipe as a new one.
     */
    method SaveSnapshotMeta() returns (ok: bool)
      modifies fs
      ensures ok
      ensures fs.files == old(fs.files)[ssMetaPath := SnapshotMetaFile(ssMeta.SerializeHeader(), ssMeta.SerializeRecipe())]
      ensures fs.dirs == old(fs.dirs) + {vmPath}
    {
      if vmPath !in fs.dirs {
        fs.CreateDirectory(vmPath);
      }
      if ssMetaPath in fs.files {
        fs.RemoveFile(ssMetaPath);
      }
      fs.WriteFile(ssMetaPath, SnapshotMetaFile(ssMeta.SerializeHeader(), ssMeta.SerializeRecipe()));
      ok := true;
    }

    /**
     * Saving the metadata of a snapshot whose recipe was grown by
     * `AddSegment` and loading it back restores the header and every
     * segment's checksum, handle, end offset and size.
     */
    method SaveThenLoadSnapshotMeta() returns (ok: bool)
      requires ssMeta.Cumulative()
      modifies fs, ssMeta
      ensures ok
      ensures ssMeta.SerializeHeader() == old(ssMeta.SerializeHeader())
      ensures |ssMeta.recipe| == old(|ssMeta.recipe|)
      ensures forall i :: 0 <= i < |ssMeta.recipe| ==> ssMeta.recipe[i] == old(ssMeta.recipe[i]).(recipe := [])
    {
      SegmentRecipeRoundTrip(ssMeta.recipe);
      ok := SaveSnapshotMeta();
      ok := LoadSnapshotMeta();
    }

    /**
     * `UpdateSnapshotRecipe`: append a copy of the entry's size, checksum,
     * end offset and handle, without its block list and without touching
     * the snapshot size.
     */
    method UpdateSnapshotRecipe(sm: SegmentMeta)
      modifies ssMeta
      ensures ssMeta.recipe == old(ssMeta.recipe) + [SegmentMeta([], sm.endOffset, sm.size, sm.cksum, sm.handle)]
      ensures ssMeta.SerializeHeader() == old(ssMeta.SerializeHeader())
    {
      var tmp := SegmentMeta([], sm.endOffset, sm.size, sm.cksum, sm.handle);
      ssMeta.recipe := ssMeta.recipe + [tmp];
    }

    /**
     * `LoadSegmentRecipe`: false, with no store read, for an index past the
     * recipe; otherwise the entry is copied out and its block list read from
     * the store through the entry's handle and rebuilt.
     */
    method LoadSegmentRecipe(sm: SegmentMeta, idx: u32) returns (ok: bool, r: SegmentMeta)
      requires idx < |ssMeta.recipe| ==> store != null
      ensures ok <==> idx < |ssMeta.recipe|
      ensures !ok ==> r == sm
      ensures ok ==> r == ssMeta.recipe[idx].(recipe :=
        RebuildBlockRecipe(StoredRecords(store.Read(GetHandle(ssMeta.recipe[idx].handle)))))
    {
      if idx >= |ssMeta.recipe| {
        return false, sm;
      }
      r := ssMeta.recipe[idx];
      var blob := store.Read(GetHandle(r.handle));
      r := DeserializeBlockRecipe(r, StoredRecords(blob));
      ok := true;
    }

    /**
     * `SaveSegmentRecipe`: append the segment's block list to the store and
     * keep the returned handle in the segment. A store that cannot take the
     * blob fails the call.
     */
    method SaveSegmentRecipe(sm: SegmentMeta) returns (ok: bool, r: SegmentMeta)
      requires store != null
      modifies store
      ensures ok <==> old(|store.log|) < TWO_64
      ensures ok ==> store.log == old(store.log) + [BlockList(BlockRecords(sm.recipe))]
      ensures ok ==> r == sm.(handle := old(|store.log|))
      ensures !ok ==> store.log == old(store.log) && r == sm
    {
      var h := store.Append(BlockList(BlockRecords(sm.recipe)));
      if h.None? {
        return false, sm;
      }
      HandleRoundTrip(sm.handle, old(|store.log|));
      r := sm.(handle := SetHandle(sm.handle, h.value).0);
      ok := true;
    }

    /**
     * `SaveBlockData`: append exactly `size` bytes of the payload, keep the
     * returned handle and set `IN_AS`, leaving the other flag bits alone.
     */
    method SaveBlockData(bm: BlockMeta) returns (ok: bool, r: BlockMeta)
      requires store != null && bm.data.Some? && |bm.data.value| >= bm.size
      modifies store
      ensures ok <==> old(|store.log|) < TWO_64
      ensures ok ==> store.log == old(store.log) + [Payload(bm.data.value[..bm.size])]
      ensures ok ==> r == bm.(handle := old(|store.log|), flags := bm.flags | IN_AS)
      ensures !ok ==> store.log == old(store.log) && r == bm
    {
      var h := store.Append(Payload(bm.SerializeData()));
      if h.None? {
        return false, bm;
      }
      HandleRoundTrip(bm.handle, old(|store.log|));
      r := bm.(handle := SetHandle(bm.handle, h.value).0);
      r := r.(flags := r.flags | IN_AS);
      ok := true;
    }

    /**
     * `LoadBlockData`: false without a read when the block is in the common
     * data store; otherwise true only when the store read succeeds and
     * returns exactly `size` bytes, which become the block's payload.
     */
    method LoadBlockData(bm: BlockMeta) returns (ok: bool, r: BlockMeta)
      requires bm.flags & IN_CDS == 0 ==> store != null
      ensures bm.flags & IN_CDS != 0 ==> !ok
      ensures ok <==> (bm.flags & IN_CDS == 0 &&
        var b := store.Read(GetHandle(bm.handle));
        b.Some? && b.value.Payload? && |b.value.bytes| == bm.size)
      ensures ok ==> r == bm.DeserializeData(store.Read(GetHandle(bm.handle)).value.bytes)
      ensures !ok ==> r == bm
    {
      if bm.flags & IN_CDS != 0 {
        return false, bm;
      }
      var b := store.Read(GetHandle(bm.handle));
      if b.Some? && b.value.Payload? && bm.size == |b.value.bytes| {
        return true, bm.DeserializeData(b.value.bytes);
      }
      return false, bm;
    }

    /**
     * A block saved to the store and loaded back through its new handle
     * gets its payload back and is marked as living in the append store.
     */
    method SaveThenLoadBlock(bm: BlockMeta) returns (ok: bool, r: BlockMeta)
      requires store != null && bm.data.Some? && |bm.data.value| == bm.size
      requires bm.flags & IN_CDS == 0 && |store.log| < TWO_64
      modifies store
      ensures ok && r.data == bm.data && r.flags & IN_AS == IN_AS && r.cksum == bm.cksum
    {
      var saved;
      ok, saved := SaveBlockData(bm);
      PlacementFlagsIndependent(bm.flags);
      assert store.log[old(|store.log|)] == Payload(bm.data.value);
      ok, r := LoadBlockData(saved);
    }

    /**
     * `InitBloomFilters`: without a VM metadata file the filter parameters
     * are computed (item count = snapshot size / average block size) and
     * written to a new one; otherwise they are read from it. The secondary
     * filter gets twice the primary's item count and the second bank of
     * hash functions.
     */
    method InitBloomFilters(snapshotSize: u64, cfg: FilterConfig) returns (ok: bool)
      requires cfg.avgBlockSize > 0
      modifies this, fs
      ensures ok
      ensures old(vmMetaPath !in fs.files) ==>
        vmMeta == VmMeta(snapshotSize / cfg.avgBlockSize, cfg.numFuncs) &&
        fs.files == old(fs.files)[vmMetaPath := VmMetaFile(vmMeta)] && fs.dirs == old(fs.dirs) + {vmPath}
      ensures old(vmMetaPath in fs.files) ==>
        fs.files == old(fs.files) && fs.dirs == old(fs.dirs) &&
        vmMeta == (if old(fs.files[vmMetaPath]).VmMetaFile? then old(fs.files[vmMetaPath]).vmMeta else old(vmMeta))
      ensures primary == Some(NewFilter(vmMeta.filterNumItems, vmMeta.filterNumFuncs, 0))
      ensures secondary == Some(NewFilter((vmMeta.filterNumItems * 2) % TWO_64, vmMeta.filterNumFuncs, 8))
      ensures Names() == old(Names()) && store == old(store)
    {
      if vmMetaPath !in fs.files {
        if vmPath !in fs.dirs {
          fs.CreateDirectory(vmPath);
        }
        vmMeta := VmMeta(snapshotSize / cfg.avgBlockSize, cfg.numFuncs);
        fs.WriteFile(vmMetaPath, VmMetaFile(vmMeta));
      } else {
        var image := fs.files[vmMetaPath];
        if image.VmMetaFile? {
          vmMeta := image.vmMeta;
        }
      }
      primary := Some(NewFilter(vmMeta.filterNumItems, vmMeta.filterNumFuncs, 0));
      secondary := Some(NewFilter((vmMeta.filterNumItems * 2) % TWO_64, vmMeta.filterNumFuncs, 8));
      ok := true;
    }

    /** `UpdateBloomFilters`: every block checksum of the segment goes into both filters. */
    method UpdateBloomFilters(sm: SegmentMeta)
      requires primary.Some? && secondary.Some?
      requires primary.value.Valid() && secondary.value.Valid()
      modifies this
      ensures primary == Some(old(primary.value).(added := old(primary.value.added) + Checksums(sm.recipe),
                                                  positives := old(primary.value.positives) + Checksums(sm.recipe)))
      ensures secondary == Some(old(secondary.value).(added := old(secondary.value.added) + Checksums(sm.recipe),
                                                      positives := old(secondary.value.positives) + Checksums(sm.recipe)))
      ensures primary.value.Valid() && secondary.value.Valid()
      ensures forall i :: 0 <= i < |sm.recipe| ==>
        primary.value.MayContain(sm.recipe[i].cksum) && secondary.value.MayContain(sm.recipe[i].cksum)
      ensures Names() == old(Names()) && vmMeta == old(vmMeta) && store == old(store)
    {
      var first, second := primary.value, secondary.value;
      var i := 0;
      assert Checksums(sm.recipe[..0]) == {};
      while i < |sm.recipe|
        modifies {}
        invariant 0 <= i <= |sm.recipe|
        invariant first == Extended(old(primary.value), Checksums(sm.recipe[..i]))
        invariant second == Extended(old(secondary.value), Checksums(sm.recipe[..i]))
      {
        ChecksumsSnoc(sm.recipe, i);
        ExtendedAdd(old(primary.value), Checksums(sm.recipe[..i]), sm.recipe[i].cksum);
        ExtendedAdd(old(secondary.value), Checksums(sm.recipe[..i]), sm.recipe[i].cksum);
        first := first.AddElement(sm.recipe[i].cksum);
        second := second.AddElement(sm.recipe[i].cksum);
        i := i + 1;
      }
      assert sm.recipe[..i] == sm.recipe;
      primary, secondary := Some(first), Some(second);
    }

    /** `SaveBloomFilter`: make sure the VM directory exists, remove an existing file, write the filter. */
    method SaveBloomFilter(f: BloomFilter, name: string) returns (ok: bool)
      modifies fs
      ensures ok && fs.files == old(fs.files)[name := FilterFile(f)] && fs.dirs == old(fs.dirs) + {vmPath}
    {
      if vmPath !in fs.dirs {
        fs.CreateDirectory(vmPath);
      }
      if name in fs.files {
        fs.RemoveFile(name);
      }
      fs.WriteFile(name, FilterFile(f));
      ok := true;
    }

    /** `SaveBloomFilters`: the primary filter, then (only if that succeeded) the secondary one. */
    method SaveBloomFilters() returns (ok: bool)
      requires primary.Some? && secondary.Some?
      modifies fs
      ensures ok
      ensures fs.files == old(fs.files)[primaryFilterPath := FilterFile(primary.value)]
                                       [secondaryFilterPath := FilterFile(secondary.value)]
      ensures fs.dirs == old(fs.dirs) + {vmPath}
    {
      ok := SaveBloomFilter(primary.value, primaryFilterPath);
      if ok {
        ok := SaveBloomFilter(secondary.value, secondaryFilterPath);
      }
    }

    /** `LoadBloomFilter`: false when the file is missing; otherwise the filter stored in it. */
    method LoadBloomFilter(name: string) returns (ok: bool, f: Option<BloomFilter>)
      ensures ok <==> name in fs.files
      ensures f.Some? <==> ok && fs.files[name].FilterFile?
      ensures f.Some? ==> f.value == fs.files[name].filter
    {
      if name !in fs.files {
        return false, None;
      }
      ok := true;
      f := if fs.files[name].FilterFile? then Some(fs.files[name].filter) else None;
    }

    /** `RemoveBloomFilter`: remove the file if it exists; always succeeds. */
    method RemoveBloomFilter(name: string) returns (ok: bool)
      modifies fs
      ensures ok && fs.files == old(fs.files) - {name} && fs.dirs == old(fs.dirs)
    {
      if name in fs.files {
        fs.RemoveFile(name);
      }
      ok := true;
    }

    /** `RemoveBloomFilters`: remove both filter files; calling it again changes nothing more. */
    method RemoveBloomFilters() returns (ok: bool)
      modifies fs
      ensures ok && fs.files == old(fs.files) - {primaryFilterPath, secondaryFilterPath}
      ensures fs.dirs == old(fs.dirs)
    {
      ok := RemoveBloomFilter(primaryFilterPath);
      if ok {
        ok := RemoveBloomFilter(secondaryFilterPath);
      }
    }
  }

  /**
   * Unlike `AddSegment`, `UpdateSnapshotRecipe` does not grow the snapshot
   * size: once an entry of non-zero size is appended to a recipe whose size
   * was its running total, the size no longer is.
   */
  lemma UpdateSnapshotRecipeLeavesSizeBehind(recipe: seq<SegmentMeta>, size: u64, sm: SegmentMeta)
    requires size == Offsets.Sum(SegmentSizes(recipe)) % TWO_64 && sm.size > 0
    ensures size != Offsets.Sum(SegmentSizes(recipe + [SegmentMeta([], sm.endOffset, sm.size, sm.cksum, sm.handle)])) % TWO_64
  {
    var tmp := SegmentMeta([], sm.endOffset, sm.size, sm.cksum, sm.handle);
    var total := Offsets.Sum(SegmentSizes(recipe));
    assert SegmentSizes(recipe + [tmp]) == SegmentSizes(recipe) + [sm.size as int];
    Offsets.SumAppend(SegmentSizes(recipe), sm.size);
    Offsets.ModDelta(total, sm.size, TWO_64);
    Offsets.DivModUnique(sm.size, 0, sm.size, TWO_64);
  }
}
