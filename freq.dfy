/**
 * The block-frequency simulation: the checksum order the simulations key
 * their maps with, the frequency scan of a trace (`do_block_freq`) with
 * its summaries, and the unsampled ("theoretical") dedup count.
 */
module Freq {
  import opened Bytes
  import opened SnapshotTypes
  import opened Trace
  import MinHeap

  // ---------------------------------------------------------- hash order

  /** `memcmp` over equal-length byte strings: the sign of the first differing byte. */
  function Memcmp(a: seq<byte>, b: seq<byte>): (r: int)
    requires |a| == |b|
    ensures -1 <= r <= 1
    decreases |a|
  {
    if a == [] then 0
    else if a[0] < b[0] then -1
    else if a[0] > b[0] then 1
    else Memcmp(a[1..], b[1..])
  }

  /** `Hash::operator<`. */
  predicate HashLess(a: Checksum, b: Checksum)
  {
    Memcmp(a, b) < 0
  }

  /** `Hash::operator==` is byte equality. */
  lemma {:induction false} MemcmpZeroIffEqual(a: seq<byte>, b: seq<byte>)
    requires |a| == |b|
    ensures Memcmp(a, b) == 0 <==> a == b
    decreases |a|
  {
    if a != [] {
      MemcmpZeroIffEqual(a[1..], b[1..]);
      if a[0] == b[0] && a[1..] == b[1..] {
        assert a == [a[0]] + a[1..] && b == [b[0]] + b[1..];
      }
    }
  }

  /** Swapping the operands flips the sign. */
  lemma {:induction false} MemcmpAntisymmetric(a: seq<byte>, b: seq<byte>)
    requires |a| == |b|
    ensures Memcmp(a, b) == -Memcmp(b, a)
    decreases |a|
  {
    if a != [] {
      MemcmpAntisymmetric(a[1..], b[1..]);
    }
  }

  /** `operator<` is transitive. */
  lemma {:induction false} MemcmpTransitive(a: seq<byte>, b: seq<byte>, c: seq<byte>)
    requires |a| == |b| == |c| && Memcmp(a, b) < 0 && Memcmp(b, c) < 0
    ensures Memcmp(a, c) < 0
    decreases |a|
  {
    if a[0] == b[0] && b[0] == c[0] {
      MemcmpTransitive(a[1..], b[1..], c[1..]);
    }
  }

  /** Checksum order is a strict total order whose equivalence is byte equality, so it can key an ordered map. */
  lemma HashOrderIsTotal(a: Checksum, b: Checksum)
    ensures !HashLess(a, a)
    ensures a != b ==> HashLess(a, b) != HashLess(b, a)
    ensures a == b <==> !HashLess(a, b) && !HashLess(b, a)
  {
    MemcmpZeroIffEqual(a, b);
    MemcmpAntisymmetric(a, b);
    MemcmpZeroIffEqual(a, a);
  }

  // ------------------------------------------------------- frequency scan

  /** The distinct checksums of a block list. */
  function Hashes(s: seq<TraceBlock>): set<Checksum>
    decreases |s|
  {
    if s == [] then {} else Hashes(s[..|s| - 1]) + {s[|s| - 1].cksum}
  }

  /** A checksum is among the distinct ones exactly when some block carries it. */
  lemma {:induction false} HashesMeaning(s: seq<TraceBlock>, h: Checksum)
    ensures h in Hashes(s) <==> exists i :: 0 <= i < |s| && s[i].cksum == h
    decreases |s|
  {
    if s != [] {
      var p := s[..|s| - 1];
      HashesMeaning(p, h);
      if h in Hashes(p) {
        var i :| 0 <= i < |p| && p[i].cksum == h;
        assert s[i].cksum == h;
      }
      if exists i :: 0 <= i < |s| && s[i].cksum == h {
        var i :| 0 <= i < |s| && s[i].cksum == h;
        if i < |p| {
          assert p[i].cksum == h;
        }
      }
    }
  }

  lemma HashesSnoc(s: seq<TraceBlock>, b: TraceBlock)
    ensures Hashes(s + [b]) == Hashes(s) + {b.cksum}
  {
    assert (s + [b])[..|s|] == s;
  }

  /** No more distinct checksums than blocks. */
  lemma {:induction false} HashesBound(s: seq<TraceBlock>)
    ensures |Hashes(s)| <= |s|
    decreases |s|
  {
    if s != [] {
      HashesBound(s[..|s| - 1]);
    }
  }

  /** `map::operator[]` on a missing key reads 0. */
  function Count(m: map<Checksum, int>, h: Checksum): int
  {
    if h in m then m[h] else 0
  }

  /** The checksums of `seen` whose count in `m` was 0: those a scan turns from 0 into 1. */
  function FirstSeen(seen: set<Checksum>, m: map<Checksum, int>): set<Checksum>
  {
    set h | h in seen && Count(m, h) == 0
  }

  /** The counts after adding one to every checksum of `seen`, once. */
  ghost predicate Bumped(freq: map<Checksum, int>, before: map<Checksum, int>, seen: set<Checksum>)
  {
    (forall h :: h in freq <==> h in before || h in seen) &&
    (forall h :: h in seen ==> freq[h] == Count(before, h) + 1) &&
    (forall h :: h in before && h !in seen ==> freq[h] == before[h])
  }

  /** The counts of `before` with one added to every checksum of `seen`. */
  function BumpAll(before: map<Checksum, int>, seen: set<Checksum>): map<Checksum, int>
  {
    map h | h in before.Keys + seen :: if h in seen then Count(before, h) + 1 else before[h]
  }

  lemma BumpAllMeaning(before: map<Checksum, int>, seen: set<Checksum>)
    ensures Bumped(BumpAll(before, seen), before, seen)
  {
  }

  /** The scan's bookkeeping: the counts, the checksums met in this call, and the three tallies. */
  datatype Scan = Scan(freq: map<Checksum, int>, segBlocks: set<Checksum>, blocks: nat, uniqBlocks: nat, newBlocks: nat)

  /** Reading one block. */
  function ScanBlock(st: Scan, b: TraceBlock): Scan
  {
    var h := b.cksum;
    if h in st.segBlocks then st.(blocks := st.blocks + 1)
    else
      var freq := st.freq[h := Count(st.freq, h) + 1];
      Scan(freq, st.segBlocks + {h}, st.blocks + 1, st.uniqBlocks + 1,
           st.newBlocks + (if freq[h] == 1 then 1 else 0))
  }

  /** The bookkeeping of the scan after reading the blocks `done`. */
  ghost predicate ScanState(st: Scan, before: map<Checksum, int>, done: seq<TraceBlock>)
  {
    st.segBlocks == Hashes(done) && st.blocks == |done| && st.uniqBlocks == |st.segBlocks| &&
    st.newBlocks == |FirstSeen(st.segBlocks, before)| && st.freq == BumpAll(before, st.segBlocks)
  }

  /** Counting a checksum not yet seen bumps it alone. */
  lemma BumpNew(before: map<Checksum, int>, seen: set<Checksum>, h: Checksum)
    requires h !in seen
    ensures Count(BumpAll(before, seen), h) == Count(before, h)
    ensures BumpAll(before, seen + {h}) == BumpAll(before, seen)[h := Count(before, h) + 1]
  {
  }

  /** A checksum not yet seen is new exactly when its old count is 0. */
  lemma FirstSeenAdd(seen: set<Checksum>, before: map<Checksum, int>, h: Checksum)
    requires h !in seen
    ensures |FirstSeen(seen + {h}, before)| == |FirstSeen(seen, before)| + (if Count(before, h) == 0 then 1 else 0)
  {
    if Count(before, h) == 0 {
      assert FirstSeen(seen + {h}, before) == FirstSeen(seen, before) + {h};
    } else {
      assert FirstSeen(seen + {h}, before) == FirstSeen(seen, before);
    }
  }

  /** Reading a block whose checksum is new in this call bumps its count. */
  lemma ScanNew(st: Scan, before: map<Checksum, int>, done: seq<TraceBlock>, b: TraceBlock)
    requires ScanState(st, before, done) && b.cksum !in st.segBlocks
    ensures ScanState(ScanBlock(st, b), before, done + [b])
  {
    var h := b.cksum;
    var next := ScanBlock(st, b);
    HashesSnoc(done, b);
    BumpNew(before, st.segBlocks, h);
    assert next.freq == BumpAll(before, st.segBlocks + {h});
    assert next.freq[h] == Count(before, h) + 1;
    FirstSeenAdd(st.segBlocks, before, h);
    assert next.newBlocks == |FirstSeen(next.segBlocks, before)|;
  }

  /** Reading a block whose checksum was already seen in this call changes no count. */
  lemma ScanSeen(st: Scan, before: map<Checksum, int>, done: seq<TraceBlock>, b: TraceBlock)
    requires ScanState(st, before, done) && b.cksum in st.segBlocks
    ensures ScanState(ScanBlock(st, b), before, done + [b])
  {
    HashesSnoc(done, b);
    assert st.segBlocks + {b.cksum} == st.segBlocks;
  }

  lemma SnocSlice<T>(prefix: seq<T>, s: seq<T>, i: nat)
    requires i < |s|
    ensures prefix + s[..i] + [s[i]] == prefix + s[..i + 1]
  {
    assert s[..i + 1] == s[..i] + [s[i]];
  }

  lemma FlattenSnoc(segs: seq<seq<TraceBlock>>, k: nat)
    requires k < |segs|
    ensures Flatten(segs[..k + 1]) == Flatten(segs[..k]) + segs[k]
  {
    assert segs[..k + 1][..k] == segs[..k];
  }

  /** The bookkeeping after reading the blocks `s`, starting from the counts `before`. */
  function ScanOf(before: map<Checksum, int>, s: seq<TraceBlock>): Scan
    decreases |s|
  {
    if s == [] then Scan(before, {}, 0, 0, 0)
    else ScanBlock(ScanOf(before, s[..|s| - 1]), s[|s| - 1])
  }

  lemma ScanOfSnoc(before: map<Checksum, int>, s: seq<TraceBlock>, b: TraceBlock)
    ensures ScanOf(before, s + [b]) == ScanBlock(ScanOf(before, s), b)
  {
    assert (s + [b])[..|s|] == s;
  }

  /** What the scan's bookkeeping means. */
  lemma {:induction false} ScanOfMeaning(before: map<Checksum, int>, s: seq<TraceBlock>)
    ensures ScanState(ScanOf(before, s), before, s)
    decreases |s|
  {
    if s == [] {
      assert FirstSeen({}, before) == {};
    } else {
      var p := s[..|s| - 1];
      var b := s[|s| - 1];
      assert s == p + [b];
      ScanOfMeaning(before, p);
      ScanOfSnoc(before, p, b);
      var st := ScanOf(before, p);
      if b.cksum in st.segBlocks {
        ScanSeen(st, before, p, b);
      } else {
        ScanNew(st, before, p, b);
      }
    }
  }

  /** One iteration of the scan's inner loop, on the scan's own variables. */
  method ReadBlock(freq0: map<Checksum, int>, segBlocks0: set<Checksum>, blocks0: nat, uniqBlocks0: nat,
                   newBlocks0: nat, b: TraceBlock)
    returns (freq: map<Checksum, int>, segBlocks: set<Checksum>, blocks: nat, uniqBlocks: nat, newBlocks: nat)
    ensures Scan(freq, segBlocks, blocks, uniqBlocks, newBlocks)
         == ScanBlock(Scan(freq0, segBlocks0, blocks0, uniqBlocks0, newBlocks0), b)
  {
    freq, segBlocks, blocks, uniqBlocks, newBlocks := freq0, segBlocks0, blocks0, uniqBlocks0, newBlocks0;
    var h := b.cksum;
    if h !in segBlocks {
      segBlocks := segBlocks + {h};
      freq := freq[h := Count(freq, h) + 1];
      if freq[h] == 1 {
        newBlocks := newBlocks + 1;
      }
      uniqBlocks := uniqBlocks + 1;
    }
    blocks := blocks + 1;
  }

  /**
   * `do_block_freq`: every distinct checksum of the trace adds one to its
   * count, once per call however often it recurs (`seg_blocks` lives for
   * the whole call); `newBlocks` counts the checksums whose count went
   * from 0 to 1, `uniqBlocks` the distinct ones and `blocks` all blocks read.
   */
  method DoBlockFreq(segs: seq<seq<TraceBlock>>, blockFreq: map<Checksum, int>)
    returns (freq: map<Checksum, int>, blocks: nat, uniqBlocks: nat, newBlocks: nat)
    ensures Bumped(freq, blockFreq, Hashes(Flatten(segs)))
    ensures blocks == |Flatten(segs)|
    ensures uniqBlocks == |Hashes(Flatten(segs))| && uniqBlocks <= blocks
    ensures newBlocks == |FirstSeen(Hashes(Flatten(segs)), blockFreq)|
  {
    freq := blockFreq;
    blocks, uniqBlocks, newBlocks := 0, 0, 0;
    var segBlocks: set<Checksum> := {};
    var s := 0;
    while s < |segs|
      invariant 0 <= s <= |segs|
      invariant Scan(freq, segBlocks, blocks, uniqBlocks, newBlocks) == ScanOf(blockFreq, Flatten(segs[..s]))
    {
      var seg := segs[s];
      ghost var prefix := Flatten(segs[..s]);
      var i := 0;
      assert prefix + seg[..0] == prefix;
      while i < |seg|
        invariant 0 <= i <= |seg|
        invariant Scan(freq, segBlocks, blocks, uniqBlocks, newBlocks) == ScanOf(blockFreq, prefix + seg[..i])
      {
        ScanOfSnoc(blockFreq, prefix + seg[..i], seg[i]);
        SnocSlice(prefix, seg, i);
        freq, segBlocks, blocks, uniqBlocks, newBlocks := ReadBlock(freq, segBlocks, blocks, uniqBlocks, newBlocks, seg[i]);
        i := i + 1;
      }
      assert seg[..i] == seg;
      FlattenSnoc(segs, s);
      s := s + 1;
    }
    assert segs[..s] == segs;
    ScanOfMeaning(blockFreq, Flatten(segs));
    HashesBound(Flatten(segs));
    BumpAllMeaning(blockFreq, segBlocks);
  }

  // ------------------------------------------------------------ summaries

  function SumOf(s: seq<int>): int
    decreases |s|
  {
    if s == [] then 0 else SumOf(s[..|s| - 1]) + s[|s| - 1]
  }

  lemma SumOfSnoc(s: seq<int>, x: int)
    ensures SumOf(s + [x]) == SumOf(s) + x
  {
    assert (s + [x])[..|s|] == s;
  }

  lemma PrefixSnoc(s: seq<int>, i: nat)
    requires i < |s|
    ensures multiset(s[..i + 1]) == multiset(s[..i]) + multiset{s[i]}
    ensures SumOf(s[..i + 1]) == SumOf(s[..i]) + s[i]
  {
    assert s[..i + 1] == s[..i] + [s[i]];
    SumOfSnoc(s[..i], s[i]);
  }

  /** The running maximum of the summaries, which starts at 0. */
  ghost predicate IsMaxFromZero(m: int, s: seq<int>)
  {
    m >= 0 && (forall i :: 0 <= i < |s| ==> s[i] <= m) && (m == 0 || m in s)
  }

  /** One count of the summary loop: a larger count restarts the tally of the maximum. */
  method TakeCount(ghost seen: seq<int>, max0: int, maxCount0: nat, count: int) returns (max: int, maxCount: nat)
    requires IsMaxFromZero(max0, seen) && maxCount0 == multiset(seen)[max0]
    ensures IsMaxFromZero(max, seen + [count]) && maxCount == multiset(seen + [count])[max]
  {
    max, maxCount := max0, maxCount0;
    if count > max {
      assert multiset(seen)[count] == 0;
      max := count;
      maxCount := 1;
    } else if count == max {
      maxCount := maxCount + 1;
    }
  }

  /**
   * The summary without a CDS share: the largest count (0 if none is
   * positive), how many entries have it, and the sum and number of all
   * counts, taken over the counts in map order.
   */
  method FreqSummary(counts: seq<int>) returns (max: int, maxCount: nat, sum: int, entries: nat)
    ensures IsMaxFromZero(max, counts)
    ensures maxCount == multiset(counts)[max]
    ensures sum == SumOf(counts) && entries == |counts|
  {
    max, maxCount, sum, entries := 0, 0, 0, 0;
    var i := 0;
    while i < |counts|
      invariant 0 <= i <= |counts| && entries == i
      invariant IsMaxFromZero(max, counts[..i])
      invariant maxCount == multiset(counts[..i])[max]
      invariant sum == SumOf(counts[..i])
    {
      var count := counts[i];
      assert counts[..i + 1] == counts[..i] + [count];
      SumOfSnoc(counts[..i], count);
      max, maxCount := TakeCount(counts[..i], max, maxCount, count);
      sum := sum + count;
      entries := entries + 1;
      i := i + 1;
    }
    assert counts[..i] == counts;
  }

  lemma MultisetShift(kept: multiset<int>, d: multiset<int>, before: multiset<int>, dropped: multiset<int>, n: int)
    requires kept + d == before + multiset{n}
    ensures kept + (dropped + d) == (before + dropped) + multiset{n}
  {
    calc {
      kept + (dropped + d);
      (kept + d) + dropped;
    }
  }

  /** Every count of `dropped` is at most every count of `kept`. */
  ghost predicate AllBelow(dropped: multiset<int>, kept: multiset<int>)
  {
    forall y, x :: y in dropped && x in kept ==> y <= x
  }

  /** A count dropped by the top-k heap stays below everything it keeps. */
  lemma DroppedStaysBelow(dropped: multiset<int>, d: multiset<int>, before: multiset<int>,
                          after: multiset<int>, wasFull: bool)
    requires AllBelow(dropped, before) && AllBelow(d, after)
    requires wasFull ==> forall y :: MinHeap.LowerBound(y, before) ==> MinHeap.LowerBound(y, after)
    requires !wasFull ==> dropped == multiset{}
    ensures AllBelow(dropped + d, after)
  {
    if wasFull {
      forall y | y in dropped ensures MinHeap.LowerBound(y, after) {
        assert MinHeap.LowerBound(y, before);
      }
    }
  }

  /** The sum and the largest (from 0) of the first `len` heap slots. */
  method KeptSummary(heap: array<int>, len: int) returns (cdsSum: int, max: int)
    requires 0 <= len <= heap.Length
    ensures cdsSum == SumOf(heap[..len]) && IsMaxFromZero(max, heap[..len])
  {
    cdsSum, max := 0, 0;
    var j := 0;
    while j < len
      invariant 0 <= j <= len
      invariant cdsSum == SumOf(heap[..j]) && IsMaxFromZero(max, heap[..j])
    {
      assert heap[..j + 1] == heap[..j] + [heap[j]];
      SumOfSnoc(heap[..j], heap[j]);
      cdsSum := cdsSum + heap[j];
      if heap[j] > max {
        max := heap[j];
      }
      j := j + 1;
    }
  }

  /**
   * One turn of the CDS selection loop: push a count through the top-k
   * heap, adding to `dropped` the count it leaves out, if any.
   */
  method PushCount(heap: array<int>, cdsLen: int, cdsSize: int, count: int, dropped: multiset<int>)
    returns (newLen: int, dropped': multiset<int>)
    requires 0 <= cdsLen <= cdsSize <= heap.Length
    requires MinHeap.IsMinHeap(heap[..], cdsLen)
    requires cdsLen < cdsSize ==> dropped == multiset{}
    requires AllBelow(dropped, multiset(heap[..cdsLen]))
    modifies heap
    ensures newLen == if cdsLen + 1 < cdsSize then cdsLen + 1 else cdsSize
    ensures MinHeap.IsMinHeap(heap[..], newLen)
    ensures multiset(heap[..newLen]) + dropped' == multiset(old(heap[..cdsLen])) + dropped + multiset{count}
    ensures newLen < cdsSize ==> dropped' == multiset{}
    ensures AllBelow(dropped', multiset(heap[..newLen]))
  {
    ghost var before := multiset(heap[..cdsLen]);
    var d;
    newLen, d := MinHeap.TopkPush(heap, cdsLen, cdsSize, count);
    dropped' := dropped + d;
    MultisetShift(multiset(heap[..newLen]), d, before, dropped, count);
    DroppedStaysBelow(dropped, d, before, multiset(heap[..newLen]), cdsLen == cdsSize);
  }

  /** One step of the as-written loop: `topk_heap` on `count`, the evicted minimum (if any) added to `evicted`. */
  method EvictCount(heap: array<int>, cdsLen: int, count: int, evicted: multiset<int>)
    returns (newLen: int, evicted': multiset<int>)
    requires 0 <= cdsLen <= heap.Length && heap.Length >= 1
    requires MinHeap.IsMinHeap(heap[..], cdsLen)
    modifies heap
    ensures newLen == if cdsLen + 1 < heap.Length then cdsLen + 1 else heap.Length
    ensures MinHeap.IsMinHeap(heap[..], newLen)
    ensures multiset(heap[..newLen]) + evicted' == multiset(old(heap[..cdsLen])) + evicted + multiset{count}
    ensures count in heap[..newLen]
  {
    ghost var before := multiset(heap[..cdsLen]);
    var least := heap[0];
    var wasFull := cdsLen == heap.Length;
    newLen := MinHeap.TopkHeap(heap, cdsLen, heap.Length, count);
    if wasFull {
      MultisetShift(multiset(heap[..newLen]), multiset{least}, before, evicted, count);
      evicted' := evicted + multiset{least};
    } else {
      evicted' := evicted;
    }
  }

  /**
   * The CDS selection loop of `do_block_freq` as written: every count goes
   * through `topk_heap`, which, once the heap is full, evicts its minimum
   * for each new count whatever that count is. `evicted` collects those
   * minimums; the last count always stays.
   */
  method SelectCounts(heap: array<int>, counts: seq<int>)
    returns (cdsLen: nat, evicted: multiset<int>, sum: int, entries: nat)
    requires heap.Length >= 1
    modifies heap
    ensures cdsLen == if |counts| < heap.Length then |counts| else heap.Length
    ensures MinHeap.IsMinHeap(heap[..], cdsLen)
    ensures multiset(heap[..cdsLen]) + evicted == multiset(counts)
    ensures |counts| > 0 ==> counts[|counts| - 1] in heap[..cdsLen]
    ensures sum == SumOf(counts) && entries == |counts|
  {
    cdsLen := 0;
    evicted := multiset{};
    sum, entries := 0, 0;
    var i := 0;
    assert heap[..0] == [];
    while i < |counts|
      invariant 0 <= i <= |counts| && entries == i && sum == SumOf(counts[..i])
      invariant cdsLen == if i < heap.Length then i else heap.Length
      invariant MinHeap.IsMinHeap(heap[..], cdsLen)
      invariant multiset(heap[..cdsLen]) + evicted == multiset(counts[..i])
      invariant i > 0 ==> counts[i - 1] in heap[..cdsLen]
    {
      var count := counts[i];
      cdsLen, evicted := EvictCount(heap, cdsLen, count, evicted);
      PrefixSnoc(counts, i);
      sum := sum + count;
      entries := entries + 1;
      i := i + 1;
    }
    assert counts[..i] == counts;
  }

  /**
   * The summary with a CDS share of `cdsSize` entries, as written: the
   * counts go through `topk_heap`, then the kept ones are summed and their
   * maximum taken. The kept counts are `cdsSize` of the counts and always
   * include the last one, but they need not be the largest.
   */
  method CdsSelection(counts: seq<int>, cdsSize: int)
    returns (kept: seq<int>, evicted: multiset<int>, cdsSum: int, max: int, sum: int, entries: nat)
    requires cdsSize >= 1
    ensures |kept| == if |counts| < cdsSize then |counts| else cdsSize
    ensures multiset(kept) + evicted == multiset(counts)
    ensures |counts| > 0 ==> counts[|counts| - 1] in kept
    ensures cdsSum == SumOf(kept) && IsMaxFromZero(max, kept)
    ensures sum == SumOf(counts) && entries == |counts|
  {
    var heap := new int[cdsSize];
    var cdsLen;
    cdsLen, evicted, sum, entries := SelectCounts(heap, counts);
    kept := heap[..cdsLen];
    cdsSum, max := KeptSummary(heap, cdsLen);
  }

  /**
   * As written, a scan whose counts are 5 then 1 with a CDS share of one
   * entry reports a CDS sum and a maximum link count of 1: the count 5 is
   * evicted by the smaller one.
   */
  method CdsSelectionReportsSmallerMax() returns (cdsSum: int, max: int)
    ensures cdsSum == 1 && max == 1
  {
    var kept, evicted, sum, entries;
    kept, evicted, cdsSum, max, sum, entries := CdsSelection([5, 1], 1);
    assert 1 in kept && |kept| == 1;
    assert kept == [1];
    assert SumOf([1]) == SumOf([]) + 1;
  }

  /** The intended CDS selection loop: every count goes through the corrected top-k heap. */
  method SelectTopCounts(heap: array<int>, counts: seq<int>)
    returns (cdsLen: nat, dropped: multiset<int>, sum: int, entries: nat)
    modifies heap
    ensures cdsLen == if |counts| < heap.Length then |counts| else heap.Length
    ensures MinHeap.IsMinHeap(heap[..], cdsLen)
    ensures multiset(heap[..cdsLen]) + dropped == multiset(counts)
    ensures AllBelow(dropped, multiset(heap[..cdsLen]))
    ensures sum == SumOf(counts) && entries == |counts|
  {
    cdsLen := 0;
    dropped := multiset{};
    sum, entries := 0, 0;
    var i := 0;
    assert heap[..0] == [];
    while i < |counts|
      invariant 0 <= i <= |counts| && entries == i && sum == SumOf(counts[..i])
      invariant cdsLen == if i < heap.Length then i else heap.Length
      invariant MinHeap.IsMinHeap(heap[..], cdsLen)
      invariant multiset(heap[..cdsLen]) + dropped == multiset(counts[..i])
      invariant cdsLen < heap.Length ==> dropped == multiset{}
      invariant AllBelow(dropped, multiset(heap[..cdsLen]))
    {
      var count := counts[i];
      cdsLen, dropped := PushCount(heap, cdsLen, heap.Length, count, dropped);
      PrefixSnoc(counts, i);
      sum := sum + count;
      entries := entries + 1;
      i := i + 1;
    }
    assert counts[..i] == counts;
  }

  /**
   * The summary with a CDS share of `cdsSize` entries as intended: the
   * kept counts are the `cdsSize` largest, so every dropped count is at
   * most every kept one; a share of 0 keeps nothing.
   */
  method TopCdsSelection(counts: seq<int>, cdsSize: int)
    returns (kept: seq<int>, dropped: multiset<int>, cdsSum: int, max: int, sum: int, entries: nat)
    requires cdsSize >= 0
    ensures |kept| == if |counts| < cdsSize then |counts| else cdsSize
    ensures multiset(kept) + dropped == multiset(counts)
    ensures forall y, x :: y in dropped && x in kept ==> y <= x
    ensures cdsSum == SumOf(kept) && IsMaxFromZero(max, kept)
    ensures sum == SumOf(counts) && entries == |counts|
  {
    var heap := new int[cdsSize];
    var cdsLen;
    cdsLen, dropped, sum, entries := SelectTopCounts(heap, counts);
    kept := heap[..cdsLen];
    cdsSum, max := KeptSummary(heap, cdsLen);
    forall y, x | y in dropped && x in kept ensures y <= x {
      assert x in multiset(kept);
    }
  }

  /** The intended selection of the same scan reports a CDS sum and a maximum of 5. */
  method TopCdsSelectionReportsLargerMax() returns (cdsSum: int, max: int)
    ensures cdsSum == 5 && max == 5
  {
    var kept, dropped, sum, entries;
    kept, dropped, cdsSum, max, sum, entries := TopCdsSelection([5, 1], 1);
    assert |kept| == 1;
    var x := kept[0];
    assert kept == [x];
    assert multiset{x} + dropped == multiset{5, 1};
    if x != 5 {
      assert false;
    }
    assert SumOf([5]) == SumOf([]) + 5;
  }

  // ---------------------------------------------------------- theoretical

  /** The number of blocks of `s` whose checksum is in `keys`. */
  function CountHits(s: seq<TraceBlock>, keys: set<Checksum>): (n: nat)
    ensures n <= |s|
    decreases |s|
  {
    if s == [] then 0
    else CountHits(s[..|s| - 1], keys) + (if s[|s| - 1].cksum in keys then 1 else 0)
  }

  /** A trace looked up against an index of its own blocks hits on every block. */
  lemma {:induction false} SelfLookupHitsAll(s: seq<TraceBlock>, keys: set<Checksum>)
    requires Hashes(s) <= keys
    ensures CountHits(s, keys) == |s|
    decreases |s|
  {
    if s != [] {
      SelfLookupHitsAll(s[..|s| - 1], keys);
    }
  }

  /** A group base: `x & ~7` for non-negative `x`. */
  function GroupBase(x: nat): (r: nat)
    ensures r <= x && r % 8 == 0
  {
    x - x % 8
  }

  /** The index the unsampled count builds: every indexed checksum maps to the group base of a segment holding it. */
  ghost predicate GroupIndex(index: map<Checksum, int>, segs: seq<seq<TraceBlock>>)
  {
    (forall h :: h in index <==> h in Hashes(Flatten(segs))) &&
    (forall h :: h in index ==> 0 <= index[h] < |segs| && index[h] % 8 == 0)
  }

  /** Indexing one reference segment: each of its checksums maps to `base`. */
  method IndexSegment(index0: map<Checksum, int>, seg: seq<TraceBlock>, base: nat,
                      ghost prior: seq<TraceBlock>, ghost bound: nat) returns (index: map<Checksum, int>)
    requires forall h :: h in index0 <==> h in Hashes(prior)
    requires forall h :: h in index0 ==> 0 <= index0[h] <= bound && index0[h] % 8 == 0
    requires base <= bound && base % 8 == 0
    ensures forall h :: h in index <==> h in Hashes(prior + seg)
    ensures forall h :: h in index ==> 0 <= index[h] <= bound && index[h] % 8 == 0
  {
    index := index0;
    var j := 0;
    assert prior + seg[..0] == prior;
    while j < |seg|
      invariant 0 <= j <= |seg|
      invariant forall h :: h in index <==> h in Hashes(prior + seg[..j])
      invariant forall h :: h in index ==> 0 <= index[h] <= bound && index[h] % 8 == 0
    {
      HashesSnoc(prior + seg[..j], seg[j]);
      SnocSlice(prior, seg, j);
      index := index[seg[j].cksum := base];
      j := j + 1;
    }
    assert seg[..j] == seg;
  }

  lemma CountHitsSnoc(s: seq<TraceBlock>, keys: set<Checksum>, b: TraceBlock)
    ensures CountHits(s + [b], keys) == CountHits(s, keys) + (if b.cksum in keys then 1 else 0)
  {
    assert (s + [b])[..|s|] == s;
  }

  /** Looking up one trace segment: each block found in the index is a hit. */
  method CountSegmentHits(index: map<Checksum, int>, seg: seq<TraceBlock>, hits0: nat,
                          ghost done: seq<TraceBlock>, ghost keys: set<Checksum>) returns (hits: nat)
    requires forall h :: h in index <==> h in keys
    requires hits0 == CountHits(done, keys)
    ensures hits == CountHits(done + seg, keys)
  {
    hits := hits0;
    var j := 0;
    assert done + seg[..0] == done;
    while j < |seg|
      invariant 0 <= j <= |seg|
      invariant hits == CountHits(done + seg[..j], keys)
    {
      CountHitsSnoc(done + seg[..j], keys, seg[j]);
      SnocSlice(done, seg, j);
      if seg[j].cksum in index {
        hits := hits + 1;
      }
      j := j + 1;
    }
    assert seg[..j] == seg;
  }

  /**
   * `theoretical`: index every block of the reference segments under the
   * group base of its segment number, then count the trace blocks found
   * in the index. `blocks` is the number of reference blocks.
   */
  method Theoretical(indexSegs: seq<seq<TraceBlock>>, trace: seq<seq<TraceBlock>>)
    returns (index: map<Checksum, int>, hits: nat, blocks: nat)
    ensures GroupIndex(index, indexSegs)
    ensures blocks == |Flatten(indexSegs)|
    ensures hits == CountHits(Flatten(trace), Hashes(Flatten(indexSegs)))
  {
    index := map[];
    var segments := 0;
    blocks := 0;
    var i := 0;
    while i < |indexSegs|
      invariant 0 <= i <= |indexSegs| && segments == i && blocks == |Flatten(indexSegs[..i])|
      invariant GroupIndex(index, indexSegs[..i])
    {
      var seg := indexSegs[i];
      index := IndexSegment(index, seg, GroupBase(segments), Flatten(indexSegs[..i]), i);
      FlattenSnoc(indexSegs, i);
      segments := segments + 1;
      blocks := blocks + |seg|;
      i := i + 1;
    }
    assert indexSegs[..i] == indexSegs;
    hits := 0;
    var t := 0;
    ghost var done: seq<TraceBlock> := [];
    while t < |trace|
      invariant 0 <= t <= |trace| && done == Flatten(trace[..t]) && hits == CountHits(done, Hashes(Flatten(indexSegs)))
    {
      hits := CountSegmentHits(index, trace[t], hits, done, Hashes(Flatten(indexSegs)));
      done := done + trace[t];
      FlattenSnoc(trace, t);
      t := t + 1;
    }
    assert trace[..t] == trace;
  }
}
