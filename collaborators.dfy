/**
 * The collaborators snapshot orchestration relies on, reduced to the
 * contract it needs from them: an append-only store, a filesystem of named
 * files and directories, and a bloom filter that never forgets an element.
 * Byte layouts of serialized objects belong to a marshalling library and
 * are not modelled: a stored blob or file holds the typed records instead.
 */
module Collaborators {
  import opened Bytes
  import opened Maybe
  import opened SnapshotTypes

  // ----------------------------------------------------------- append store

  /** What the append store holds: raw block payloads, or a segment's serialized block list. */
  datatype Blob = Payload(bytes: seq<byte>) | BlockList(records: seq<BlockRecord>)

  /**
   * Reading a handle from the store: a handle is the 8-byte position of its
   * blob in append order; anything else is a failed read.
   */
  function ReadLog(log: seq<Blob>, h: seq<byte>): (r: Option<Blob>)
    ensures r.Some? <==> |h| == 8 && U64Of(h) < |log|
    ensures r.Some? ==> r.value == log[U64Of(h)]
  {
    if |h| == 8 && U64Of(h) < |log| then Some(log[U64Of(h)]) else None
  }

  /** Durability: once appended, a blob is what its handle reads back, and earlier handles still read the same. */
  lemma ReadAfterAppend(log: seq<Blob>, b: Blob, h: seq<byte>)
    requires |log| < TWO_64
    ensures ReadLog(log + [b], GetHandle(|log|)) == Some(b)
    ensures ReadLog(log, h).Some? ==> ReadLog(log + [b], h) == ReadLog(log, h)
  {
  }

  class AppendStore {
    var log: seq<Blob>

    constructor ()
      ensures log == []
    {
      log := [];
    }

    /** `Append`: the handle of the new blob; None when the store cannot take another one. */
    method Append(b: Blob) returns (h: Option<seq<byte>>)
      modifies this
      ensures old(|log|) < TWO_64 ==> h == Some(GetHandle(old(|log|))) && log == old(log) + [b]
      ensures old(|log|) >= TWO_64 ==> h == None && log == old(log)
    {
      if |log| < TWO_64 {
        h := Some(GetHandle(|log|));
        log := log + [b];
      } else {
        h := None;
      }
    }

    function Read(h: seq<byte>): (r: Option<Blob>)
      reads this
      ensures r == ReadLog(log, h)
    {
      ReadLog(log, h)
    }
  }

  // ----------------------------------------------------------- bloom filter

  /**
   * A bloom filter over checksums. `added` is what was inserted;
   * `positives` is what a membership probe answers true for, which may be
   * more (false positives) but never less.
   */
  datatype BloomFilter = BloomFilter(
    numItems: u64, numFuncs: u32, bank: nat,   // bank: first hash function of the group used
    added: set<Checksum>, positives: set<Checksum>)
  {
    ghost predicate Valid()
    {
      added <= positives
    }

    /** `AddElement`: the checksum is inserted and answers true from now on. */
    function AddElement(c: Checksum): (f: BloomFilter)
      ensures f.added == added + {c} && f.positives == positives + {c}
      ensures f.numItems == numItems && f.numFuncs == numFuncs && f.bank == bank
      ensures Valid() ==> f.Valid()
    {
      this.(added := added + {c}, positives := positives + {c})
    }

    /** A membership probe. */
    predicate MayContain(c: Checksum)
    {
      c in positives
    }
  }

  /** A new, empty filter sized for `numItems` elements. */
  function NewFilter(numItems: u64, numFuncs: u32, bank: nat): (f: BloomFilter)
    ensures f.Valid() && f.added == {} && f.numItems == numItems
  {
    BloomFilter(numItems, numFuncs, bank, {}, {})
  }

  /** No false negatives: every element added is reported as possibly present. */
  lemma NoFalseNegatives(f: BloomFilter, c: Checksum)
    requires f.Valid() && c in f.added
    ensures f.MayContain(c)
  {
  }

  // ------------------------------------------------------------- filesystem

  /** Bloom-filter sizing kept once per VM (the false-positive rate is not modelled). */
  datatype VmMeta = VmMeta(filterNumItems: u64, filterNumFuncs: u32)

  /** What a named file holds. */
  datatype FileImage =
    | SnapshotMetaFile(header: Header, recipe: seq<SegmentRecord>)
    | FilterFile(filter: BloomFilter)
    | VmMetaFile(vmMeta: VmMeta)

  class FileSystem {
    var files: map<string, FileImage>
    var dirs: set<string>

    constructor ()
      ensures files == map[] && dirs == {}
    {
      files := map[];
      dirs := {};
    }

    method CreateDirectory(path: string)
      modifies this
      ensures dirs == old(dirs) + {path} && files == old(files)
    {
      dirs := dirs + {path};
    }

    method RemoveFile(path: string)
      modifies this
      ensures files == old(files) - {path} && dirs == old(dirs)
    {
      files := files - {path};
    }

    /** Create a file (or reopen an existing one) and write a whole image into it. */
    method WriteFile(path: string, image: FileImage)
      modifies this
      ensures files == old(files)[path := image] && dirs == old(dirs)
    {
      files := files[path := image];
    }
  }

  /**
   * The simulations' block cache (`LruCache`): a bounded list of
   * checksums, oldest first. Adding items appends them and drops the
   * oldest beyond the capacity; looking an item up does not change it.
   */
  datatype Lru = Lru(capacity: nat, items: seq<Checksum>)
  {
    ghost predicate Valid()
    {
      |items| <= capacity
    }

    predicate SearchItem(h: Checksum)
    {
      h in items
    }

    function AddItems(hs: seq<Checksum>): (r: Lru)
      ensures r.capacity == capacity && r.Valid()
    {
      var all := items + hs;
      var k := if |all| <= capacity then 0 else |all| - capacity;
      Lru(capacity, all[k..])
    }
  }

  /** Adding keeps the newest items, as many as fit. */
  lemma AddItemsKeepsNewest(c: Lru, hs: seq<Checksum>)
    ensures var all := c.items + hs;
            |c.AddItems(hs).items| == (if |all| <= c.capacity then |all| else c.capacity) &&
            c.AddItems(hs).items == all[|all| - |c.AddItems(hs).items|..]
  {
  }

  /** The items just added are all found afterwards, when they fit. */
  lemma AddItemsFinds(c: Lru, hs: seq<Checksum>)
    requires |hs| <= c.capacity
    ensures forall i :: 0 <= i < |hs| ==> c.AddItems(hs).SearchItem(hs[i])
  {
    var all := c.items + hs;
    var k := if |all| <= c.capacity then 0 else |all| - c.capacity;
    forall i | 0 <= i < |hs| ensures c.AddItems(hs).SearchItem(hs[i]) {
      assert all[k..][|c.items| + i - k] == hs[i];
    }
  }
}
