/**
 * The sampled-index dedup simulation (`sampled`): a sparse index over the
 * reference segments, grouped into containers of eight segments of which
 * one block in a hundred is indexed, and the lookup loop that classifies
 * every block of a trace as a parent hit, a cache hit, an index hit or a
 * miss, in that order of precedence.
 */
module Sampled {
  import opened SnapshotTypes
  import opened Trace
  import opened Collaborators
  import Freq

  /** Segments per container. */
  const CONTAINER := 8
  /** One block in this many is indexed. */
  const SAMPLE_RATE := 100

  // -------------------------------------------------------- sampled index

  /** The segments of the container starting at segment `base`. */
  function Container(segs: seq<seq<TraceBlock>>, base: nat): seq<seq<TraceBlock>>
    requires base <= |segs|
  {
    segs[base..if base + CONTAINER < |segs| then base + CONTAINER else |segs|]
  }

  /** Index under `base` every block of `s` whose position in `s` is a multiple of the sample rate. */
  function SampleInto(index: map<Checksum, int>, s: seq<TraceBlock>, base: int): map<Checksum, int>
    decreases |s|
  {
    if s == [] then index
    else
      var m := SampleInto(index, s[..|s| - 1], base);
      if (|s| - 1) % SAMPLE_RATE == 0 then m[s[|s| - 1].cksum := base] else m
  }

  function NumContainers(n: nat): nat
  {
    (n + CONTAINER - 1) / CONTAINER
  }

  /** The index after sampling the first `c` containers. */
  function SampledUpTo(segs: seq<seq<TraceBlock>>, c: nat): map<Checksum, int>
    requires c <= NumContainers(|segs|)
    decreases c
  {
    if c == 0 then map[]
    else
      var base := CONTAINER * (c - 1);
      SampleInto(SampledUpTo(segs, c - 1), Flatten(Container(segs, base)), base)
  }

  /** The sampled index over all the reference segments. */
  function SampledIndex(segs: seq<seq<TraceBlock>>): map<Checksum, int>
  {
    SampledUpTo(segs, NumContainers(|segs|))
  }

  lemma SampleIntoSnoc(index: map<Checksum, int>, s: seq<TraceBlock>, b: TraceBlock, base: int)
    ensures SampleInto(index, s + [b], base) ==
            if |s| % SAMPLE_RATE == 0 then SampleInto(index, s, base)[b.cksum := base] else SampleInto(index, s, base)
  {
    assert (s + [b])[..|s|] == s;
  }

  /**
   * Sampling keeps every key already present, adds exactly the checksums
   * at the sampled positions, and files each of those under `base`; a key
   * it does not add keeps its old value.
   */
  lemma {:induction false} SampleIntoMeaning(index: map<Checksum, int>, s: seq<TraceBlock>, base: int)
    ensures index.Keys <= SampleInto(index, s, base).Keys
    ensures forall p :: 0 <= p < |s| && p % SAMPLE_RATE == 0 ==> s[p].cksum in SampleInto(index, s, base)
    ensures forall p :: 0 <= p < |s| && p % SAMPLE_RATE == 0 ==> SampleInto(index, s, base)[s[p].cksum] == base
    ensures forall h :: h in SampleInto(index, s, base) ==>
              h in index || exists p :: 0 <= p < |s| && p % SAMPLE_RATE == 0 && s[p].cksum == h
    ensures forall h :: h in SampleInto(index, s, base) ==>
              (h in index && SampleInto(index, s, base)[h] == index[h]) || SampleInto(index, s, base)[h] == base
    ensures forall h :: h in index && (forall p :: 0 <= p < |s| && p % SAMPLE_RATE == 0 ==> s[p].cksum != h) ==>
              SampleInto(index, s, base)[h] == index[h]
    decreases |s|
  {
    if s != [] {
      var p := s[..|s| - 1];
      SampleIntoMeaning(index, p, base);
      assert s == p + [s[|s| - 1]];
      SampleIntoSnoc(index, p, s[|s| - 1], base);
      assert forall q :: 0 <= q < |p| ==> s[q] == p[q];
    }
  }

  /** Every value of the sampled index is a container base: a multiple of 8 below the segment count. */
  lemma {:induction false} SampledValues(segs: seq<seq<TraceBlock>>, c: nat)
    requires c <= NumContainers(|segs|)
    ensures forall h :: h in SampledUpTo(segs, c) ==>
              SampledUpTo(segs, c)[h] % CONTAINER == 0 && 0 <= SampledUpTo(segs, c)[h] < |segs|
    decreases c
  {
    if c > 0 {
      var base := CONTAINER * (c - 1);
      SampledValues(segs, c - 1);
      SampleIntoMeaning(SampledUpTo(segs, c - 1), Flatten(Container(segs, base)), base);
    }
  }

  /** The first block of every non-empty container is indexed (under some container). */
  lemma {:induction false} FirstBlockIndexed(segs: seq<seq<TraceBlock>>, c: nat, c0: nat)
    requires c0 < c <= NumContainers(|segs|)
    requires Flatten(Container(segs, CONTAINER * c0)) != []
    ensures Flatten(Container(segs, CONTAINER * c0))[0].cksum in SampledUpTo(segs, c)
    decreases c
  {
    var base := CONTAINER * (c - 1);
    var prev := SampledUpTo(segs, c - 1);
    var h := Flatten(Container(segs, CONTAINER * c0))[0].cksum;
    assert SampledUpTo(segs, c) == SampleInto(prev, Flatten(Container(segs, base)), base);
    if c0 < c - 1 {
      assert h in prev by {
        FirstBlockIndexed(segs, c - 1, c0);
      }
      assert prev.Keys <= SampleInto(prev, Flatten(Container(segs, base)), base).Keys by {
        SampleIntoMeaning(prev, Flatten(Container(segs, base)), base);
      }
    } else {
      assert 0 % SAMPLE_RATE == 0;
      SampleIntoMeaning(prev, Flatten(Container(segs, base)), base);
    }
  }

  lemma FlattenSlice(segs: seq<seq<TraceBlock>>, lo: nat, hi: nat)
    requires lo < hi <= |segs|
    ensures Flatten(segs[lo..hi]) == Flatten(segs[lo..hi - 1]) + segs[hi - 1]
  {
    assert segs[lo..hi][..hi - 1 - lo] == segs[lo..hi - 1];
  }

  lemma ContainerStep(indexBlocks: seq<seq<TraceBlock>>, i: nat, j: nat)
    requires i <= |indexBlocks| && j < |Container(indexBlocks, i)|
    ensures Container(indexBlocks, i)[j] == indexBlocks[i + j]
    ensures Flatten(Container(indexBlocks, i)[..j + 1]) == Flatten(Container(indexBlocks, i)[..j]) + indexBlocks[i + j]
  {
    Freq.FlattenSnoc(Container(indexBlocks, i), j);
  }

  lemma SampleIntoStep(before: map<Checksum, int>, prefix: seq<TraceBlock>, seg: seq<TraceBlock>, k: nat, base: int)
    requires k < |seg|
    ensures SampleInto(before, prefix + seg[..k + 1], base) ==
            if (|prefix| + k) % SAMPLE_RATE == 0 then SampleInto(before, prefix + seg[..k], base)[seg[k].cksum := base]
            else SampleInto(before, prefix + seg[..k], base)
  {
    SampleIntoSnoc(before, prefix + seg[..k], seg[k], base);
    Freq.SnocSlice(prefix, seg, k);
  }

  /**
   * The body of the index construction for the container at `i`: the
   * block number restarts at 0 and runs across the container's segments;
   * a block is indexed under `i` when its number is a multiple of 100.
   */
  method SampleContainer(indexBlocks: seq<seq<TraceBlock>>, i: nat, index0: map<Checksum, int>)
    returns (index: map<Checksum, int>)
    requires i < |indexBlocks|
    ensures index == SampleInto(index0, Flatten(Container(indexBlocks, i)), i)
  {
    index := index0;
    ghost var cont := Container(indexBlocks, i);
    var blockIndex := 0;
    var j := 0;
    while j < CONTAINER && i + j < |indexBlocks|
      invariant 0 <= j <= |cont|
      invariant blockIndex == |Flatten(cont[..j])|
      invariant index == SampleInto(index0, Flatten(cont[..j]), i)
    {
      var seg := indexBlocks[i + j];
      ghost var prefix := Flatten(cont[..j]);
      var k := 0;
      assert prefix + seg[..0] == prefix;
      while k < |seg|
        invariant 0 <= k <= |seg| && blockIndex == |prefix| + k
        invariant index == SampleInto(index0, prefix + seg[..k], i)
      {
        SampleIntoStep(index0, prefix, seg, k, i);
        if blockIndex % SAMPLE_RATE == 0 {
          index := index[seg[k].cksum := i];
        }
        blockIndex := blockIndex + 1;
        k := k + 1;
      }
      assert seg[..k] == seg;
      ContainerStep(indexBlocks, i, j);
      j := j + 1;
    }
    assert cont[..j] == cont;
  }

  /**
   * The index construction of `sampled`: each container of eight segments
   * is sampled in turn under its base, a later container overwriting an
   * earlier one's entry.
   */
  method BuildSampledIndex(indexBlocks: seq<seq<TraceBlock>>) returns (index: map<Checksum, int>)
    ensures index == SampledIndex(indexBlocks)
    ensures IndexInRange(index, indexBlocks)
    ensures forall h :: h in index ==> index[h] % CONTAINER == 0
  {
    index := map[];
    var i := 0;
    ghost var c := 0;
    while i < |indexBlocks|
      invariant i == CONTAINER * c && c <= NumContainers(|indexBlocks|)
      invariant index == SampledUpTo(indexBlocks, c)
    {
      index := SampleContainer(indexBlocks, i, index);
      i := i + CONTAINER;
      c := c + 1;
    }
    SampledValues(indexBlocks, c);
  }

  // ------------------------------------------------------------ lookups

  /** The simulation's counters. */
  datatype Tally = Tally(parentHits: nat, cacheHits: nat, indexHits: nat, misses: nat, cleanSegments: nat)

  /** The blocks the simulation reports: hits of every kind plus misses. */
  function Reported(t: Tally): nat
  {
    t.parentHits + t.cacheHits + t.indexHits + t.misses + t.cleanSegments
  }

  datatype SimState = SimState(tally: Tally, cache: Lru)

  /** Every index entry names a reference segment. */
  predicate IndexInRange(index: map<Checksum, int>, indexBlocks: seq<seq<TraceBlock>>)
  {
    forall h :: h in index ==> 0 <= index[h] < |indexBlocks|
  }

  /** Where a block was found. */
  datatype Outcome = ParentHit | CacheHit | IndexHit(base: int) | Miss

  /** The lookup order: the parent segment, then the cache, then the sampled index. */
  function Classify(doParent: bool, parent: set<Checksum>, cache: Lru, index: map<Checksum, int>, h: Checksum): (o: Outcome)
    ensures o == ParentHit <==> doParent && h in parent
    ensures o == CacheHit <==> !(doParent && h in parent) && cache.SearchItem(h)
    ensures o.IndexHit? <==> !(doParent && h in parent) && !cache.SearchItem(h) && h in index
    ensures o.IndexHit? ==> o.base == index[h]
  {
    if doParent && h in parent then ParentHit
    else if cache.SearchItem(h) then CacheHit
    else if h in index then IndexHit(index[h])
    else Miss
  }

  /** The checksums of a segment's blocks, in order. */
  function Checksums(seg: seq<TraceBlock>): (r: seq<Checksum>)
    ensures |r| == |seg| && forall i :: 0 <= i < |seg| ==> r[i] == seg[i].cksum
  {
    seq(|seg|, i requires 0 <= i < |seg| => seg[i].cksum)
  }

  /** Add the blocks of every segment of `segs` to the cache, in order. */
  function AddSegments(cache: Lru, segs: seq<seq<TraceBlock>>): Lru
    requires cache.Valid()
    ensures AddSegments(cache, segs).Valid() && AddSegments(cache, segs).capacity == cache.capacity
    decreases |segs|
  {
    if segs == [] then cache
    else AddSegments(cache, segs[..|segs| - 1]).AddItems(Checksums(segs[|segs| - 1]))
  }

  /** The segments an index hit under `base` loads into the cache: `base` up to `base + 7`, within the reference. */
  function HitContainer(indexBlocks: seq<seq<TraceBlock>>, base: int): seq<seq<TraceBlock>>
    requires 0 <= base <= |indexBlocks|
  {
    indexBlocks[base..if base + CONTAINER < |indexBlocks| then base + CONTAINER else |indexBlocks|]
  }

  /** Looking up one block: exactly one counter grows; an index hit also loads its container into the cache. */
  function LookupBlock(st: SimState, b: TraceBlock, doParent: bool, parent: set<Checksum>,
                       index: map<Checksum, int>, indexBlocks: seq<seq<TraceBlock>>): SimState
    requires st.cache.Valid()
    requires IndexInRange(index, indexBlocks)
  {
    var t := st.tally;
    match Classify(doParent, parent, st.cache, index, b.cksum)
    case ParentHit => st.(tally := t.(parentHits := t.parentHits + 1))
    case CacheHit => st.(tally := t.(cacheHits := t.cacheHits + 1))
    case IndexHit(j) =>
      SimState(t.(indexHits := t.indexHits + 1), AddSegments(st.cache, HitContainer(indexBlocks, j)))
    case Miss => st.(tally := t.(misses := t.misses + 1))
  }

  function LookupBlocks(st: SimState, s: seq<TraceBlock>, doParent: bool, parent: set<Checksum>,
                        index: map<Checksum, int>, indexBlocks: seq<seq<TraceBlock>>): (r: SimState)
    requires st.cache.Valid()
    requires IndexInRange(index, indexBlocks)
    ensures r.cache.Valid()
    decreases |s|
  {
    if s == [] then st
    else LookupBlock(LookupBlocks(st, s[..|s| - 1], doParent, parent, index, indexBlocks), s[|s| - 1],
                     doParent, parent, index, indexBlocks)
  }

  /**
   * One trace segment, the `segi`-th: with dirty tracking, a segment equal
   * to its reference segment counts all its blocks as clean and looks
   * nothing up; otherwise each block is looked up, against the reference
   * segment too when parent lookups are on.
   */
  function SegmentStep(st: SimState, seg: seq<TraceBlock>, segi: nat, doDirty: bool, doParent: bool,
                       index: map<Checksum, int>, indexBlocks: seq<seq<TraceBlock>>): (r: SimState)
    requires st.cache.Valid()
    requires IndexInRange(index, indexBlocks)
    requires (doDirty || doParent) ==> segi < |indexBlocks|
    ensures r.cache.Valid()
  {
    if doDirty && seg == indexBlocks[segi] then
      st.(tally := st.tally.(cleanSegments := st.tally.cleanSegments + |seg|))
    else
      var parent := if doParent then Freq.Hashes(indexBlocks[segi]) else {};
      LookupBlocks(st, seg, doParent, parent, index, indexBlocks)
  }

  /** The state after the first segments of a trace. */
  function RunTrace(st: SimState, trace: seq<seq<TraceBlock>>, doDirty: bool, doParent: bool,
                    index: map<Checksum, int>, indexBlocks: seq<seq<TraceBlock>>): (r: SimState)
    requires st.cache.Valid()
    requires IndexInRange(index, indexBlocks)
    requires (doDirty || doParent) ==> |trace| <= |indexBlocks|
    ensures r.cache.Valid()
    decreases |trace|
  {
    if trace == [] then st
    else SegmentStep(RunTrace(st, trace[..|trace| - 1], doDirty, doParent, index, indexBlocks),
                     trace[|trace| - 1], |trace| - 1, doDirty, doParent, index, indexBlocks)
  }

  /** Every block looked up adds exactly one to the reported total. */
  lemma {:induction false} LookupBlocksCountsEach(st: SimState, s: seq<TraceBlock>, doParent: bool, parent: set<Checksum>,
                                                  index: map<Checksum, int>, indexBlocks: seq<seq<TraceBlock>>)
    requires st.cache.Valid()
    requires IndexInRange(index, indexBlocks)
    ensures Reported(LookupBlocks(st, s, doParent, parent, index, indexBlocks).tally) == Reported(st.tally) + |s|
    ensures LookupBlocks(st, s, doParent, parent, index, indexBlocks).tally.cleanSegments == st.tally.cleanSegments
    decreases |s|
  {
    if s != [] {
      LookupBlocksCountsEach(st, s[..|s| - 1], doParent, parent, index, indexBlocks);
    }
  }

  /** The reported total is the number of blocks in the trace, clean or looked up. */
  lemma {:induction false} RunTraceCountsEveryBlock(st: SimState, trace: seq<seq<TraceBlock>>, doDirty: bool, doParent: bool,
                                                    index: map<Checksum, int>, indexBlocks: seq<seq<TraceBlock>>)
    requires st.cache.Valid()
    requires IndexInRange(index, indexBlocks)
    requires (doDirty || doParent) ==> |trace| <= |indexBlocks|
    ensures Reported(RunTrace(st, trace, doDirty, doParent, index, indexBlocks).tally) == Reported(st.tally) + |Flatten(trace)|
    decreases |trace|
  {
    if trace != [] {
      var p := trace[..|trace| - 1];
      RunTraceCountsEveryBlock(st, p, doDirty, doParent, index, indexBlocks);
      var mid := RunTrace(st, p, doDirty, doParent, index, indexBlocks);
      var seg := trace[|trace| - 1];
      if !(doDirty && seg == indexBlocks[|trace| - 1]) {
        var parent := if doParent then Freq.Hashes(indexBlocks[|trace| - 1]) else {};
        LookupBlocksCountsEach(mid, seg, doParent, parent, index, indexBlocks);
      }
    }
  }

  /** A clean segment (dirty tracking on) changes neither the cache nor any hit or miss counter. */
  lemma CleanSegmentSkipsLookups(st: SimState, seg: seq<TraceBlock>, segi: nat, doParent: bool,
                                 index: map<Checksum, int>, indexBlocks: seq<seq<TraceBlock>>)
    requires st.cache.Valid()
    requires IndexInRange(index, indexBlocks)
    requires segi < |indexBlocks| && seg == indexBlocks[segi]
    ensures var r := SegmentStep(st, seg, segi, true, doParent, index, indexBlocks);
            r.cache == st.cache && r.tally == st.tally.(cleanSegments := st.tally.cleanSegments + |seg|)
  {
  }

  /** After an index hit, the last segment of the hit container is in the cache, when it fits. */
  lemma IndexHitCachesContainer(st: SimState, b: TraceBlock, doParent: bool, parent: set<Checksum>,
                                index: map<Checksum, int>, indexBlocks: seq<seq<TraceBlock>>)
    requires st.cache.Valid()
    requires IndexInRange(index, indexBlocks)
    requires Classify(doParent, parent, st.cache, index, b.cksum).IndexHit?
    requires var last := indexBlocks[Last(index[b.cksum], |indexBlocks|)]; |last| <= st.cache.capacity
    ensures var last := indexBlocks[Last(index[b.cksum], |indexBlocks|)];
            forall i :: 0 <= i < |last| ==>
              LookupBlock(st, b, doParent, parent, index, indexBlocks).cache.SearchItem(last[i].cksum)
  {
    var j := index[b.cksum];
    var segs := HitContainer(indexBlocks, j);
    var last := indexBlocks[Last(j, |indexBlocks|)];
    assert segs[|segs| - 1] == last;
    var before := AddSegments(st.cache, segs[..|segs| - 1]);
    AddItemsFinds(before, Checksums(last));
  }

  /** The last segment an index hit under `base` loads. */
  function Last(base: nat, n: nat): nat
    requires base < n
    ensures base <= Last(base, n) < n
  {
    if base + CONTAINER < n then base + CONTAINER - 1 else n - 1
  }

  lemma AddSegmentsSnoc(cache: Lru, segs: seq<seq<TraceBlock>>, j: nat, k: nat)
    requires cache.Valid() && j <= k < |segs|
    ensures AddSegments(cache, segs[j..k + 1]) == AddSegments(cache, segs[j..k]).AddItems(Checksums(segs[k]))
  {
    assert segs[j..k + 1] == segs[j..k] + [segs[k]];
    AddSegmentsAppend(cache, segs[j..k], segs[k]);
  }

  lemma AddSegmentsAppend(cache: Lru, segs: seq<seq<TraceBlock>>, seg: seq<TraceBlock>)
    requires cache.Valid()
    ensures AddSegments(cache, segs + [seg]) == AddSegments(cache, segs).AddItems(Checksums(seg))
  {
    assert (segs + [seg])[..|segs|] == segs;
  }

  /** One step of the cache loading: `cache.AddItems(indexBlocks[k])`. */
  function AddSegmentAt(cache0: Lru, cache: Lru, indexBlocks: seq<seq<TraceBlock>>, j: nat, k: nat): (r: Lru)
    requires cache0.Valid() && j <= k < |indexBlocks| && cache == AddSegments(cache0, indexBlocks[j..k])
    ensures r == AddSegments(cache0, indexBlocks[j..k + 1])
  {
    AddSegmentsSnoc(cache0, indexBlocks, j, k);
    cache.AddItems(Checksums(indexBlocks[k]))
  }

  /** The cache loading of an index hit under `j`: the segments `j` up to `j + 7` that exist, in order. */
  method LoadContainer(cache0: Lru, indexBlocks: seq<seq<TraceBlock>>, j: int) returns (cache: Lru)
    requires cache0.Valid() && 0 <= j < |indexBlocks|
    ensures cache == AddSegments(cache0, HitContainer(indexBlocks, j))
  {
    cache := cache0;
    var k := j;
    while k < j + CONTAINER && k < |indexBlocks|
      invariant j <= k <= |indexBlocks| && k <= j + CONTAINER
      invariant cache == AddSegments(cache0, indexBlocks[j..k])
    {
      cache := AddSegmentAt(cache0, cache, indexBlocks, j, k);
      k := k + 1;
    }
    assert k == if j + CONTAINER < |indexBlocks| then j + CONTAINER else |indexBlocks|;
  }

  /** The per-block loop of `sampled` over one segment that is not skipped as clean. */
  method LookupSegment(st: SimState, seg: seq<TraceBlock>, doParent: bool, parent: set<Checksum>,
                       index: map<Checksum, int>, indexBlocks: seq<seq<TraceBlock>>)
    returns (tally: Tally, cache: Lru)
    requires st.cache.Valid() && IndexInRange(index, indexBlocks)
    ensures SimState(tally, cache) == LookupBlocks(st, seg, doParent, parent, index, indexBlocks)
  {
    tally, cache := st.tally, st.cache;
    var i := 0;
    while i < |seg|
      invariant 0 <= i <= |seg| && cache.Valid()
      invariant SimState(tally, cache) == LookupBlocks(st, seg[..i], doParent, parent, index, indexBlocks)
    {
      LookupBlocksSnoc(st, seg, i, doParent, parent, index, indexBlocks);
      tally, cache := LookupOne(tally, cache, seg[i], doParent, parent, index, indexBlocks);
      i := i + 1;
    }
    assert seg[..i] == seg;
  }

  lemma LookupBlocksSnoc(st: SimState, seg: seq<TraceBlock>, i: nat, doParent: bool, parent: set<Checksum>,
                         index: map<Checksum, int>, indexBlocks: seq<seq<TraceBlock>>)
    requires st.cache.Valid() && IndexInRange(index, indexBlocks) && i < |seg|
    ensures LookupBlocks(st, seg[..i + 1], doParent, parent, index, indexBlocks) ==
            LookupBlock(LookupBlocks(st, seg[..i], doParent, parent, index, indexBlocks), seg[i], doParent, parent, index, indexBlocks)
  {
    assert seg[..i + 1][..i] == seg[..i];
  }

  /** The lookup of one block: parent, then cache, then index (loading the container), else a miss. */
  method LookupOne(tally0: Tally, cache0: Lru, b: TraceBlock, doParent: bool, parent: set<Checksum>,
                   index: map<Checksum, int>, indexBlocks: seq<seq<TraceBlock>>)
    returns (tally: Tally, cache: Lru)
    requires cache0.Valid() && IndexInRange(index, indexBlocks)
    ensures cache.Valid()
    ensures SimState(tally, cache) == LookupBlock(SimState(tally0, cache0), b, doParent, parent, index, indexBlocks)
  {
    var h := b.cksum;
    tally, cache := tally0, cache0;
    if doParent && h in parent {
      tally := tally.(parentHits := tally.parentHits + 1);
    } else if cache.SearchItem(h) {
      tally := tally.(cacheHits := tally.cacheHits + 1);
    } else if h in index {
      cache := LoadContainer(cache, indexBlocks, index[h]);
      tally := tally.(indexHits := tally.indexHits + 1);
    } else {
      tally := tally.(misses := tally.misses + 1);
    }
  }

  /**
   * `sampled`: build the sampled index, then look up every segment of the
   * trace in turn. The counters are those of `RunTrace`; `blocks` is the
   * number of blocks in the trace.
   */
  method SampledDedup(indexBlocks: seq<seq<TraceBlock>>, trace: seq<seq<TraceBlock>>, cacheSize: nat,
                      doDirty: bool, doParent: bool)
    returns (tally: Tally, hits: nat, blocks: nat)
    requires (doDirty || doParent) ==> |trace| <= |indexBlocks|
    ensures IndexInRange(SampledIndex(indexBlocks), indexBlocks)
    ensures tally == RunTrace(SimState(Tally(0, 0, 0, 0, 0), Lru(cacheSize, [])), trace, doDirty, doParent,
                              SampledIndex(indexBlocks), indexBlocks).tally
    ensures hits == tally.cacheHits + tally.indexHits + tally.cleanSegments + tally.parentHits
    ensures blocks == hits + tally.misses && blocks == |Flatten(trace)|
  {
    var index := BuildSampledIndex(indexBlocks);
    var cache := Lru(cacheSize, []);
    ghost var start := SimState(Tally(0, 0, 0, 0, 0), cache);
    tally := Tally(0, 0, 0, 0, 0);
    var segi := 0;
    while segi < |trace|
      invariant 0 <= segi <= |trace|
      invariant SimState(tally, cache) == RunTrace(start, trace[..segi], doDirty, doParent, index, indexBlocks)
    {
      var seg := trace[segi];
      assert trace[..segi + 1][..segi] == trace[..segi];
      if doDirty && seg == indexBlocks[segi] {
        tally := tally.(cleanSegments := tally.cleanSegments + |seg|);
      } else {
        var parent: set<Checksum> := {};
        if doParent {
          parent := Freq.Hashes(indexBlocks[segi]);
        }
        tally, cache := LookupSegment(SimState(tally, cache), seg, doParent, parent, index, indexBlocks);
      }
      segi := segi + 1;
    }
    assert trace[..segi] == trace;
    RunTraceCountsEveryBlock(start, trace, doDirty, doParent, index, indexBlocks);
    hits := tally.cacheHits + tally.indexHits + tally.cleanSegments + tally.parentHits;
    blocks := hits + tally.misses;
  }
}
