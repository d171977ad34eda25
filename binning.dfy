/**
 * The binning simulation's partition loop: the traces are read once per
 * partition; a segment belongs to the partition its min-hash routes to and
 * joins the bin of that min-hash, and a block counts toward the
 * theoretical (exact) dedup of the partition its own checksum routes to.
 * Summed over all partitions the counters describe the whole trace.
 */
module Binning {
  import opened SnapshotTypes
  import opened Trace
  import Freq

  /** A segment as the binning reader produces it: its blocks and the min-hash `Segment::Final` computes. */
  datatype BinSeg = BinSeg(blocks: seq<TraceBlock>, minhash: Checksum)

  /** The counters the partition loop accumulates, never reset between partitions. */
  datatype Totals = Totals(totalSize: nat, totalBlocks: nat, totalSegments: nat,
                           theoryDedupSize: nat, theoryDedupBlocks: nat, totalBins: nat)

  function Plus(a: Totals, b: Totals): Totals
  {
    Totals(a.totalSize + b.totalSize, a.totalBlocks + b.totalBlocks, a.totalSegments + b.totalSegments,
           a.theoryDedupSize + b.theoryDedupSize, a.theoryDedupBlocks + b.theoryDedupBlocks, a.totalBins + b.totalBins)
  }

  /** The routing test `Middle4Bytes() % partitions == parti`, with `Middle4Bytes` given as `mid`. */
  predicate InPart(mid: Checksum -> nat, partitions: nat, parti: nat, h: Checksum)
    requires partitions > 0
  {
    mid(h) % partitions == parti
  }

  // ------------------------------------------------------- whole-trace view

  /** All blocks of a list of segments, in order. */
  function AllBlocks(segs: seq<BinSeg>): seq<TraceBlock>
    decreases |segs|
  {
    if segs == [] then [] else AllBlocks(segs[..|segs| - 1]) + segs[|segs| - 1].blocks
  }

  /** The distinct min-hashes of a list of segments. */
  function MinSet(segs: seq<BinSeg>): set<Checksum>
    decreases |segs|
  {
    if segs == [] then {} else MinSet(segs[..|segs| - 1]) + {segs[|segs| - 1].minhash}
  }

  /** The total size of the blocks whose checksum has not occurred earlier: the exact dedup size. */
  function FirstSize(s: seq<TraceBlock>): nat
    decreases |s|
  {
    if s == [] then 0
    else
      var p := s[..|s| - 1];
      FirstSize(p) + (if s[|s| - 1].cksum in Freq.Hashes(p) then 0 else s[|s| - 1].size)
  }

  /** Deduplication never yields more than there is. */
  lemma {:induction false} FirstSizeBound(s: seq<TraceBlock>)
    ensures FirstSize(s) <= SizeOf(s)
    decreases |s|
  {
    if s != [] {
      FirstSizeBound(s[..|s| - 1]);
    }
  }

  // ------------------------------------------------------- partition views

  /** The segments routed to partition `p`, in order. */
  function Admitted(segs: seq<BinSeg>, mid: Checksum -> nat, partitions: nat, p: nat): seq<BinSeg>
    requires partitions > 0
    decreases |segs|
  {
    if segs == [] then []
    else
      var last := segs[|segs| - 1];
      Admitted(segs[..|segs| - 1], mid, partitions, p) + (if InPart(mid, partitions, p, last.minhash) then [last] else [])
  }

  /** The blocks routed to partition `p` by their own checksum, in order. */
  function BlocksIn(s: seq<TraceBlock>, mid: Checksum -> nat, partitions: nat, p: nat): seq<TraceBlock>
    requires partitions > 0
    decreases |s|
  {
    if s == [] then []
    else
      var last := s[|s| - 1];
      BlocksIn(s[..|s| - 1], mid, partitions, p) + (if InPart(mid, partitions, p, last.cksum) then [last] else [])
  }

  /** The members of `S` routed to partition `p`. */
  function PartOf(S: set<Checksum>, mid: Checksum -> nat, partitions: nat, p: nat): set<Checksum>
    requires partitions > 0
  {
    set h | h in S && InPart(mid, partitions, p, h)
  }

  /** What one partition adds to the counters. */
  function Contribution(segs: seq<BinSeg>, mid: Checksum -> nat, partitions: nat, p: nat): Totals
    requires partitions > 0
  {
    var admitted := Admitted(segs, mid, partitions, p);
    var theory := BlocksIn(AllBlocks(segs), mid, partitions, p);
    Totals(SizeOf(AllBlocks(admitted)), |AllBlocks(admitted)|, |admitted|,
           FirstSize(theory), |Freq.Hashes(theory)|, |MinSet(admitted)|)
  }

  /** The counters after the first `n` partitions. */
  function SumTotals(segs: seq<BinSeg>, mid: Checksum -> nat, partitions: nat, n: nat): Totals
    requires partitions > 0
    decreases n
  {
    if n == 0 then Totals(0, 0, 0, 0, 0, 0)
    else Plus(SumTotals(segs, mid, partitions, n - 1), Contribution(segs, mid, partitions, n - 1))
  }

  // ------------------------------------------------------------- splitting

  /** The sum of a list of per-partition quantities. */
  function SumSeq(xs: seq<nat>): nat
    decreases |xs|
  {
    if xs == [] then 0 else SumSeq(xs[..|xs| - 1]) + xs[|xs| - 1]
  }

  lemma SumSeqSnoc(xs: seq<nat>, x: nat)
    ensures SumSeq(xs + [x]) == SumSeq(xs) + x
  {
    assert (xs + [x])[..|xs|] == xs;
  }

  lemma {:induction false} SumSeqZero(xs: seq<nat>)
    requires forall i :: 0 <= i < |xs| ==> xs[i] == 0
    ensures SumSeq(xs) == 0
    decreases |xs|
  {
    if xs != [] {
      SumSeqZero(xs[..|xs| - 1]);
    }
  }

  /** Adding `d` to the quantity of partition `k` alone adds `d` to the sum. */
  lemma {:induction false} SumSeqShift(xs: seq<nat>, ys: seq<nat>, k: nat, d: nat)
    requires |xs| == |ys| && k < |xs|
    requires forall i :: 0 <= i < |xs| ==> ys[i] == xs[i] + (if i == k then d else 0)
    ensures SumSeq(ys) == SumSeq(xs) + d
    decreases |xs|
  {
    var n := |xs| - 1;
    if k == n {
      assert xs[..n] == ys[..n];
    } else {
      SumSeqShift(xs[..n], ys[..n], k, d);
    }
  }

  /** The admitted segments of partitions `0 .. n-1`, one entry per partition. */
  function SegmentsVec(segs: seq<BinSeg>, mid: Checksum -> nat, partitions: nat, n: nat): seq<nat>
    requires partitions > 0
    decreases n
  {
    if n == 0 then [] else SegmentsVec(segs, mid, partitions, n - 1) + [|Admitted(segs, mid, partitions, n - 1)|]
  }

  lemma {:induction false} SegmentsVecAt(segs: seq<BinSeg>, mid: Checksum -> nat, partitions: nat, n: nat)
    requires partitions > 0
    ensures |SegmentsVec(segs, mid, partitions, n)| == n
    ensures forall p :: 0 <= p < n ==> SegmentsVec(segs, mid, partitions, n)[p] == |Admitted(segs, mid, partitions, p)|
    decreases n
  {
    if n > 0 {
      SegmentsVecAt(segs, mid, partitions, n - 1);
    }
  }

  /** The admitted blocks of partitions `0 .. n-1`, one entry per partition. */
  function BlocksVec(segs: seq<BinSeg>, mid: Checksum -> nat, partitions: nat, n: nat): seq<nat>
    requires partitions > 0
    decreases n
  {
    if n == 0 then [] else BlocksVec(segs, mid, partitions, n - 1) + [|AllBlocks(Admitted(segs, mid, partitions, n - 1))|]
  }

  lemma {:induction false} BlocksVecAt(segs: seq<BinSeg>, mid: Checksum -> nat, partitions: nat, n: nat)
    requires partitions > 0
    ensures |BlocksVec(segs, mid, partitions, n)| == n
    ensures forall p :: 0 <= p < n ==> BlocksVec(segs, mid, partitions, n)[p] == |AllBlocks(Admitted(segs, mid, partitions, p))|
    decreases n
  {
    if n > 0 {
      BlocksVecAt(segs, mid, partitions, n - 1);
    }
  }

  /** The admitted bytes of partitions `0 .. n-1`, one entry per partition. */
  function BytesVec(segs: seq<BinSeg>, mid: Checksum -> nat, partitions: nat, n: nat): seq<nat>
    requires partitions > 0
    decreases n
  {
    if n == 0 then [] else BytesVec(segs, mid, partitions, n - 1) + [SizeOf(AllBlocks(Admitted(segs, mid, partitions, n - 1)))]
  }

  lemma {:induction false} BytesVecAt(segs: seq<BinSeg>, mid: Checksum -> nat, partitions: nat, n: nat)
    requires partitions > 0
    ensures |BytesVec(segs, mid, partitions, n)| == n
    ensures forall p :: 0 <= p < n ==> BytesVec(segs, mid, partitions, n)[p] == SizeOf(AllBlocks(Admitted(segs, mid, partitions, p)))
    decreases n
  {
    if n > 0 {
      BytesVecAt(segs, mid, partitions, n - 1);
    }
  }

  /** The bins of partitions `0 .. n-1`, one entry per partition. */
  function BinsVec(segs: seq<BinSeg>, mid: Checksum -> nat, partitions: nat, n: nat): seq<nat>
    requires partitions > 0
    decreases n
  {
    if n == 0 then [] else BinsVec(segs, mid, partitions, n - 1) + [|MinSet(Admitted(segs, mid, partitions, n - 1))|]
  }

  lemma {:induction false} BinsVecAt(segs: seq<BinSeg>, mid: Checksum -> nat, partitions: nat, n: nat)
    requires partitions > 0
    ensures |BinsVec(segs, mid, partitions, n)| == n
    ensures forall p :: 0 <= p < n ==> BinsVec(segs, mid, partitions, n)[p] == |MinSet(Admitted(segs, mid, partitions, p))|
    decreases n
  {
    if n > 0 {
      BinsVecAt(segs, mid, partitions, n - 1);
    }
  }

  /** The exact dedup sizes of partitions `0 .. n-1`, one entry per partition. */
  function FirstVec(s: seq<TraceBlock>, mid: Checksum -> nat, partitions: nat, n: nat): seq<nat>
    requires partitions > 0
    decreases n
  {
    if n == 0 then [] else FirstVec(s, mid, partitions, n - 1) + [FirstSize(BlocksIn(s, mid, partitions, n - 1))]
  }

  lemma {:induction false} FirstVecAt(s: seq<TraceBlock>, mid: Checksum -> nat, partitions: nat, n: nat)
    requires partitions > 0
    ensures |FirstVec(s, mid, partitions, n)| == n
    ensures forall p :: 0 <= p < n ==> FirstVec(s, mid, partitions, n)[p] == FirstSize(BlocksIn(s, mid, partitions, p))
    decreases n
  {
    if n > 0 {
      FirstVecAt(s, mid, partitions, n - 1);
    }
  }

  /** The distinct checksums of partitions `0 .. n-1`, one entry per partition. */
  function UniqueVec(s: seq<TraceBlock>, mid: Checksum -> nat, partitions: nat, n: nat): seq<nat>
    requires partitions > 0
    decreases n
  {
    if n == 0 then [] else UniqueVec(s, mid, partitions, n - 1) + [|Freq.Hashes(BlocksIn(s, mid, partitions, n - 1))|]
  }

  lemma {:induction false} UniqueVecAt(s: seq<TraceBlock>, mid: Checksum -> nat, partitions: nat, n: nat)
    requires partitions > 0
    ensures |UniqueVec(s, mid, partitions, n)| == n
    ensures forall p :: 0 <= p < n ==> UniqueVec(s, mid, partitions, n)[p] == |Freq.Hashes(BlocksIn(s, mid, partitions, p))|
    decreases n
  {
    if n > 0 {
      UniqueVecAt(s, mid, partitions, n - 1);
    }
  }

  /** The part sizes of `S` of partitions `0 .. n-1`, one entry per partition. */
  function PartsVec(S: set<Checksum>, mid: Checksum -> nat, partitions: nat, n: nat): seq<nat>
    requires partitions > 0
    decreases n
  {
    if n == 0 then [] else PartsVec(S, mid, partitions, n - 1) + [|PartOf(S, mid, partitions, n - 1)|]
  }

  lemma {:induction false} PartsVecAt(S: set<Checksum>, mid: Checksum -> nat, partitions: nat, n: nat)
    requires partitions > 0
    ensures |PartsVec(S, mid, partitions, n)| == n
    ensures forall p :: 0 <= p < n ==> PartsVec(S, mid, partitions, n)[p] == |PartOf(S, mid, partitions, p)|
    decreases n
  {
    if n > 0 {
      PartsVecAt(S, mid, partitions, n - 1);
    }
  }

  lemma SumTotalsPrev(segs: seq<BinSeg>, mid: Checksum -> nat, partitions: nat, n: nat)
    requires partitions > 0 && n > 0
    ensures SumTotals(segs, mid, partitions, n) ==
            Plus(SumTotals(segs, mid, partitions, n - 1), Contribution(segs, mid, partitions, n - 1))
  {
  }

  /** The byte, block and segment counters after `n` partitions. */
  lemma {:induction false} SumTotalsAdmitted(segs: seq<BinSeg>, mid: Checksum -> nat, partitions: nat, n: nat)
    requires partitions > 0
    ensures SumTotals(segs, mid, partitions, n).totalSize == SumSeq(BytesVec(segs, mid, partitions, n))
    ensures SumTotals(segs, mid, partitions, n).totalBlocks == SumSeq(BlocksVec(segs, mid, partitions, n))
    ensures SumTotals(segs, mid, partitions, n).totalSegments == SumSeq(SegmentsVec(segs, mid, partitions, n))
    decreases n
  {
    if n > 0 {
      SumTotalsAdmitted(segs, mid, partitions, n - 1);
      SumTotalsAdmittedStep(segs, mid, partitions, n);
    }
  }

  lemma SumTotalsAdmittedStep(segs: seq<BinSeg>, mid: Checksum -> nat, partitions: nat, n: nat)
    requires partitions > 0 && n > 0
    requires SumTotals(segs, mid, partitions, n - 1).totalSize == SumSeq(BytesVec(segs, mid, partitions, n - 1))
    requires SumTotals(segs, mid, partitions, n - 1).totalBlocks == SumSeq(BlocksVec(segs, mid, partitions, n - 1))
    requires SumTotals(segs, mid, partitions, n - 1).totalSegments == SumSeq(SegmentsVec(segs, mid, partitions, n - 1))
    ensures SumTotals(segs, mid, partitions, n).totalSize == SumSeq(BytesVec(segs, mid, partitions, n))
    ensures SumTotals(segs, mid, partitions, n).totalBlocks == SumSeq(BlocksVec(segs, mid, partitions, n))
    ensures SumTotals(segs, mid, partitions, n).totalSegments == SumSeq(SegmentsVec(segs, mid, partitions, n))
  {
    SumTotalsPrev(segs, mid, partitions, n);
    SumSeqSnoc(BytesVec(segs, mid, partitions, n - 1), SizeOf(AllBlocks(Admitted(segs, mid, partitions, n - 1))));
    SumSeqSnoc(BlocksVec(segs, mid, partitions, n - 1), |AllBlocks(Admitted(segs, mid, partitions, n - 1))|);
    SumSeqSnoc(SegmentsVec(segs, mid, partitions, n - 1), |Admitted(segs, mid, partitions, n - 1)|);
  }

  /** The theoretical dedup size after `n` partitions. */
  lemma {:induction false} SumTotalsFirst(segs: seq<BinSeg>, mid: Checksum -> nat, partitions: nat, n: nat)
    requires partitions > 0
    ensures SumTotals(segs, mid, partitions, n).theoryDedupSize == SumSeq(FirstVec(AllBlocks(segs), mid, partitions, n))
    decreases n
  {
    if n > 0 {
      SumTotalsFirst(segs, mid, partitions, n - 1);
      SumTotalsFirstStep(segs, mid, partitions, n);
    }
  }

  lemma SumTotalsFirstStep(segs: seq<BinSeg>, mid: Checksum -> nat, partitions: nat, n: nat)
    requires partitions > 0 && n > 0
    requires SumTotals(segs, mid, partitions, n - 1).theoryDedupSize == SumSeq(FirstVec(AllBlocks(segs), mid, partitions, n - 1))
    ensures SumTotals(segs, mid, partitions, n).theoryDedupSize == SumSeq(FirstVec(AllBlocks(segs), mid, partitions, n))
  {
    SumTotalsPrev(segs, mid, partitions, n);
    SumSeqSnoc(FirstVec(AllBlocks(segs), mid, partitions, n - 1), FirstSize(BlocksIn(AllBlocks(segs), mid, partitions, n - 1)));
  }

  /** The theoretical dedup block count and the bin count after `n` partitions. */
  lemma {:induction false} SumTotalsSets(segs: seq<BinSeg>, mid: Checksum -> nat, partitions: nat, n: nat)
    requires partitions > 0
    ensures SumTotals(segs, mid, partitions, n).theoryDedupBlocks == SumSeq(UniqueVec(AllBlocks(segs), mid, partitions, n))
    ensures SumTotals(segs, mid, partitions, n).totalBins == SumSeq(BinsVec(segs, mid, partitions, n))
    decreases n
  {
    if n > 0 {
      SumTotalsSets(segs, mid, partitions, n - 1);
      SumTotalsSetsStep(segs, mid, partitions, n);
    }
  }

  lemma SumTotalsSetsStep(segs: seq<BinSeg>, mid: Checksum -> nat, partitions: nat, n: nat)
    requires partitions > 0 && n > 0
    requires SumTotals(segs, mid, partitions, n - 1).theoryDedupBlocks == SumSeq(UniqueVec(AllBlocks(segs), mid, partitions, n - 1))
    requires SumTotals(segs, mid, partitions, n - 1).totalBins == SumSeq(BinsVec(segs, mid, partitions, n - 1))
    ensures SumTotals(segs, mid, partitions, n).theoryDedupBlocks == SumSeq(UniqueVec(AllBlocks(segs), mid, partitions, n))
    ensures SumTotals(segs, mid, partitions, n).totalBins == SumSeq(BinsVec(segs, mid, partitions, n))
  {
    SumTotalsPrev(segs, mid, partitions, n);
    SumSeqSnoc(UniqueVec(AllBlocks(segs), mid, partitions, n - 1), |Freq.Hashes(BlocksIn(AllBlocks(segs), mid, partitions, n - 1))|);
    SumSeqSnoc(BinsVec(segs, mid, partitions, n - 1), |MinSet(Admitted(segs, mid, partitions, n - 1))|);
  }

  lemma BlocksInSnoc(s: seq<TraceBlock>, b: TraceBlock, mid: Checksum -> nat, partitions: nat, p: nat)
    requires partitions > 0
    ensures BlocksIn(s + [b], mid, partitions, p) ==
            if InPart(mid, partitions, p, b.cksum) then BlocksIn(s, mid, partitions, p) + [b]
            else BlocksIn(s, mid, partitions, p)
  {
    assert (s + [b])[..|s|] == s;
    assert BlocksIn(s, mid, partitions, p) + [] == BlocksIn(s, mid, partitions, p);
  }
  lemma PartOfAdd(S: set<Checksum>, h: Checksum, mid: Checksum -> nat, partitions: nat, p: nat)
    requires partitions > 0
    ensures PartOf(S + {h}, mid, partitions, p) ==
            if InPart(mid, partitions, p, h) then PartOf(S, mid, partitions, p) + {h}
            else PartOf(S, mid, partitions, p)
  {
  }
  /** The distinct checksums of a partition's blocks are the partition's part of all distinct checksums. */
  lemma {:induction false} HashesOfPart(s: seq<TraceBlock>, mid: Checksum -> nat, partitions: nat, p: nat)
    requires partitions > 0
    ensures Freq.Hashes(BlocksIn(s, mid, partitions, p)) == PartOf(Freq.Hashes(s), mid, partitions, p)
    decreases |s|
  {
    if s != [] {
      var q := s[..|s| - 1];
      var b := s[|s| - 1];
      HashesOfPart(q, mid, partitions, p);
      assert s == q + [b];
      Freq.HashesSnoc(q, b);
      BlocksInSnoc(q, b, mid, partitions, p);
      PartOfAdd(Freq.Hashes(q), b.cksum, mid, partitions, p);
      if InPart(mid, partitions, p, b.cksum) {
        Freq.HashesSnoc(BlocksIn(q, mid, partitions, p), b);
      }
    }
  }
  /** The bins of a partition are the partition's part of all min-hashes. */
  lemma {:induction false} MinSetOfPart(segs: seq<BinSeg>, mid: Checksum -> nat, partitions: nat, p: nat)
    requires partitions > 0
    ensures MinSet(Admitted(segs, mid, partitions, p)) == PartOf(MinSet(segs), mid, partitions, p)
    decreases |segs|
  {
    if segs != [] {
      var q := segs[..|segs| - 1];
      var last := segs[|segs| - 1];
      MinSetOfPart(q, mid, partitions, p);
      var a := Admitted(q, mid, partitions, p);
      if InPart(mid, partitions, p, last.minhash) {
        assert (a + [last])[..|a|] == a;
      } else {
        assert a + [] == a;
      }
    }
  }
  lemma HashesOfPartSize(s: seq<TraceBlock>, mid: Checksum -> nat, partitions: nat, p: nat)
    requires partitions > 0
    ensures |Freq.Hashes(BlocksIn(s, mid, partitions, p))| == |PartOf(Freq.Hashes(s), mid, partitions, p)|
  {
    HashesOfPart(s, mid, partitions, p);
  }
  lemma MinSetOfPartSize(segs: seq<BinSeg>, mid: Checksum -> nat, partitions: nat, p: nat)
    requires partitions > 0
    ensures |MinSet(Admitted(segs, mid, partitions, p))| == |PartOf(MinSet(segs), mid, partitions, p)|
  {
    MinSetOfPart(segs, mid, partitions, p);
  }
  /** Every member of a set routes to exactly one partition, so the parts' sizes add up to the whole. */
  lemma {:induction false} PartitionCount(S: set<Checksum>, mid: Checksum -> nat, partitions: nat)
    requires partitions > 0
    ensures SumSeq(PartsVec(S, mid, partitions, partitions)) == |S|
    decreases |S|
  {
    if S == {} {
      PartsVecAt(S, mid, partitions, partitions);
      forall p: nat | p < partitions
        ensures PartsVec(S, mid, partitions, partitions)[p] == 0
      {
        assert PartOf(S, mid, partitions, p) == {};
      }
      SumSeqZero(PartsVec(S, mid, partitions, partitions));
    } else {
      var x :| x in S;
      var rest := S - {x};
      PartitionCount(rest, mid, partitions);
      assert rest + {x} == S;
      var k := mid(x) % partitions;
      PartsVecAt(S, mid, partitions, partitions);
      PartsVecAt(rest, mid, partitions, partitions);
      forall p: nat | p < partitions
        ensures PartsVec(S, mid, partitions, partitions)[p] == PartsVec(rest, mid, partitions, partitions)[p] + (if p == k then 1 else 0)
      {
        PartOfAdd(rest, x, mid, partitions, p);
      }
      SumSeqShift(PartsVec(rest, mid, partitions, partitions), PartsVec(S, mid, partitions, partitions), k, 1);
    }
  }

  /** Summed over partitions, the distinct checksums of each partition's blocks are all the trace's. */
  lemma UniqueSplit(s: seq<TraceBlock>, mid: Checksum -> nat, partitions: nat)
    requires partitions > 0
    ensures SumSeq(UniqueVec(s, mid, partitions, partitions)) == |Freq.Hashes(s)|
  {
    UniqueVecAt(s, mid, partitions, partitions);
    PartsVecAt(Freq.Hashes(s), mid, partitions, partitions);
    forall p: nat | p < partitions
      ensures UniqueVec(s, mid, partitions, partitions)[p] == PartsVec(Freq.Hashes(s), mid, partitions, partitions)[p]
    {
      HashesOfPartSize(s, mid, partitions, p);
    }
    assert UniqueVec(s, mid, partitions, partitions) == PartsVec(Freq.Hashes(s), mid, partitions, partitions);
    PartitionCount(Freq.Hashes(s), mid, partitions);
  }

  /** Summed over partitions, the min-hashes of each partition's segments are all the trace's. */
  lemma BinsSplit(segs: seq<BinSeg>, mid: Checksum -> nat, partitions: nat)
    requires partitions > 0
    ensures SumSeq(BinsVec(segs, mid, partitions, partitions)) == |MinSet(segs)|
  {
    BinsVecAt(segs, mid, partitions, partitions);
    PartsVecAt(MinSet(segs), mid, partitions, partitions);
    forall p: nat | p < partitions
      ensures BinsVec(segs, mid, partitions, partitions)[p] == PartsVec(MinSet(segs), mid, partitions, partitions)[p]
    {
      MinSetOfPartSize(segs, mid, partitions, p);
    }
    assert BinsVec(segs, mid, partitions, partitions) == PartsVec(MinSet(segs), mid, partitions, partitions);
    PartitionCount(MinSet(segs), mid, partitions);
  }

  lemma AllBlocksSnoc(segs: seq<BinSeg>, s: BinSeg)
    ensures AllBlocks(segs + [s]) == AllBlocks(segs) + s.blocks
  {
    assert (segs + [s])[..|segs|] == segs;
  }
  lemma AdmittedSnoc(segs: seq<BinSeg>, s: BinSeg, mid: Checksum -> nat, partitions: nat, p: nat)
    requires partitions > 0
    ensures Admitted(segs + [s], mid, partitions, p) ==
            if InPart(mid, partitions, p, s.minhash) then Admitted(segs, mid, partitions, p) + [s]
            else Admitted(segs, mid, partitions, p)
  {
    assert (segs + [s])[..|segs|] == segs;
    assert Admitted(segs, mid, partitions, p) + [] == Admitted(segs, mid, partitions, p);
  }
  /** A segment adds its blocks to its own partition's admitted blocks, and nothing elsewhere. */
  lemma AdmittedBlocksSnoc(segs: seq<BinSeg>, s: BinSeg, mid: Checksum -> nat, partitions: nat, p: nat)
    requires partitions > 0
    ensures |AllBlocks(Admitted(segs + [s], mid, partitions, p))| ==
            |AllBlocks(Admitted(segs, mid, partitions, p))| + (if mid(s.minhash) % partitions == p then |s.blocks| else 0)
  {
    var a := Admitted(segs, mid, partitions, p);
    AdmittedSnoc(segs, s, mid, partitions, p);
    if InPart(mid, partitions, p, s.minhash) {
      AllBlocksSnoc(a, s);
    }
  }
  /** A segment adds its bytes to its own partition's admitted bytes, and nothing elsewhere. */
  lemma AdmittedBytesSnoc(segs: seq<BinSeg>, s: BinSeg, mid: Checksum -> nat, partitions: nat, p: nat)
    requires partitions > 0
    ensures SizeOf(AllBlocks(Admitted(segs + [s], mid, partitions, p))) ==
            SizeOf(AllBlocks(Admitted(segs, mid, partitions, p))) + (if mid(s.minhash) % partitions == p then SizeOf(s.blocks) else 0)
  {
    var a := Admitted(segs, mid, partitions, p);
    AdmittedSnoc(segs, s, mid, partitions, p);
    if InPart(mid, partitions, p, s.minhash) {
      AllBlocksSnoc(a, s);
      SizeOfAppend(AllBlocks(a), s.blocks);
    }
  }
  /** Every segment routes to exactly one partition, so the admitted segments add up to all of them. */
  lemma {:induction false} SegmentsSplit(segs: seq<BinSeg>, mid: Checksum -> nat, partitions: nat)
    requires partitions > 0
    ensures SumSeq(SegmentsVec(segs, mid, partitions, partitions)) == |segs|
    decreases |segs|
  {
    if segs == [] {
      SegmentsVecAt(segs, mid, partitions, partitions);
      SumSeqZero(SegmentsVec(segs, mid, partitions, partitions));
    } else {
      var q := segs[..|segs| - 1];
      var s := segs[|segs| - 1];
      assert segs == q + [s];
      SegmentsSplit(q, mid, partitions);
      var k := mid(s.minhash) % partitions;
      SegmentsVecAt(segs, mid, partitions, partitions);
      SegmentsVecAt(q, mid, partitions, partitions);
      forall p: nat | p < partitions
        ensures SegmentsVec(segs, mid, partitions, partitions)[p] == SegmentsVec(q, mid, partitions, partitions)[p] + (if p == k then 1 else 0)
      {
        AdmittedSnoc(q, s, mid, partitions, p);
      }
      SumSeqShift(SegmentsVec(q, mid, partitions, partitions), SegmentsVec(segs, mid, partitions, partitions), k, 1);
    }
  }

  /** The admitted blocks of all partitions are all the blocks. */
  lemma {:induction false} BlocksSplit(segs: seq<BinSeg>, mid: Checksum -> nat, partitions: nat)
    requires partitions > 0
    ensures SumSeq(BlocksVec(segs, mid, partitions, partitions)) == |AllBlocks(segs)|
    decreases |segs|
  {
    if segs == [] {
      BlocksVecAt(segs, mid, partitions, partitions);
      SumSeqZero(BlocksVec(segs, mid, partitions, partitions));
    } else {
      var q := segs[..|segs| - 1];
      var s := segs[|segs| - 1];
      assert segs == q + [s];
      BlocksSplit(q, mid, partitions);
      AllBlocksSnoc(q, s);
      var k := mid(s.minhash) % partitions;
      BlocksVecAt(segs, mid, partitions, partitions);
      BlocksVecAt(q, mid, partitions, partitions);
      forall p: nat | p < partitions
        ensures BlocksVec(segs, mid, partitions, partitions)[p] == BlocksVec(q, mid, partitions, partitions)[p] + (if p == k then |s.blocks| else 0)
      {
        AdmittedBlocksSnoc(q, s, mid, partitions, p);
      }
      SumSeqShift(BlocksVec(q, mid, partitions, partitions), BlocksVec(segs, mid, partitions, partitions), k, |s.blocks|);
    }
  }

  /** The admitted bytes of all partitions are all the bytes. */
  lemma {:induction false} BytesSplit(segs: seq<BinSeg>, mid: Checksum -> nat, partitions: nat)
    requires partitions > 0
    ensures SumSeq(BytesVec(segs, mid, partitions, partitions)) == SizeOf(AllBlocks(segs))
    decreases |segs|
  {
    if segs == [] {
      BytesVecAt(segs, mid, partitions, partitions);
      SumSeqZero(BytesVec(segs, mid, partitions, partitions));
    } else {
      var q := segs[..|segs| - 1];
      var s := segs[|segs| - 1];
      assert segs == q + [s];
      BytesSplit(q, mid, partitions);
      AllBlocksSnoc(q, s);
      SizeOfAppend(AllBlocks(q), s.blocks);
      var k := mid(s.minhash) % partitions;
      BytesVecAt(segs, mid, partitions, partitions);
      BytesVecAt(q, mid, partitions, partitions);
      forall p: nat | p < partitions
        ensures BytesVec(segs, mid, partitions, partitions)[p] == BytesVec(q, mid, partitions, partitions)[p] + (if p == k then SizeOf(s.blocks) else 0)
      {
        AdmittedBytesSnoc(q, s, mid, partitions, p);
      }
      SumSeqShift(BytesVec(q, mid, partitions, partitions), BytesVec(segs, mid, partitions, partitions), k, SizeOf(s.blocks));
    }
  }

  /** A block adds its size to its own partition's dedup size on its first sighting, and nothing elsewhere. */
  lemma FirstSizeInPartSnoc(s: seq<TraceBlock>, b: TraceBlock, mid: Checksum -> nat, partitions: nat, p: nat)
    requires partitions > 0
    ensures FirstSize(BlocksIn(s + [b], mid, partitions, p)) ==
            FirstSize(BlocksIn(s, mid, partitions, p)) +
            (if InPart(mid, partitions, p, b.cksum) && b.cksum !in Freq.Hashes(s) then b.size else 0)
  {
    var q := BlocksIn(s, mid, partitions, p);
    assert (s + [b])[..|s|] == s;
    if InPart(mid, partitions, p, b.cksum) {
      assert BlocksIn(s + [b], mid, partitions, p) == q + [b];
      assert (q + [b])[..|q|] == q;
      HashesOfPart(s, mid, partitions, p);
    } else {
      assert BlocksIn(s + [b], mid, partitions, p) == q + [];
      assert q + [] == q;
    }
  }
  /** Each checksum routes to one partition, so the per-partition exact dedup sizes add up to the whole trace's. */
  lemma {:induction false} FirstSizeSplit(s: seq<TraceBlock>, mid: Checksum -> nat, partitions: nat)
    requires partitions > 0
    ensures SumSeq(FirstVec(s, mid, partitions, partitions)) == FirstSize(s)
    decreases |s|
  {
    if s == [] {
      FirstVecAt(s, mid, partitions, partitions);
      SumSeqZero(FirstVec(s, mid, partitions, partitions));
    } else {
      var q := s[..|s| - 1];
      var b := s[|s| - 1];
      assert s == q + [b];
      FirstSizeSplit(q, mid, partitions);
      var k := mid(b.cksum) % partitions;
      var d := if b.cksum in Freq.Hashes(q) then 0 else b.size;
      FirstVecAt(s, mid, partitions, partitions);
      FirstVecAt(q, mid, partitions, partitions);
      forall p: nat | p < partitions
        ensures FirstVec(s, mid, partitions, partitions)[p] == FirstVec(q, mid, partitions, partitions)[p] + (if p == k then d else 0)
      {
        FirstSizeInPartSnoc(q, b, mid, partitions, p);
      }
      SumSeqShift(FirstVec(q, mid, partitions, partitions), FirstVec(s, mid, partitions, partitions), k, d);
    }
  }

  /**
   * After all partitions the counters describe the whole trace: every
   * byte, block and segment once, the exact dedup size and block count of
   * the whole trace, and one bin per distinct min-hash.
   */
  lemma AllPartitionsCoverTrace(segs: seq<BinSeg>, mid: Checksum -> nat, partitions: nat)
    requires partitions > 0
    ensures SumTotals(segs, mid, partitions, partitions) ==
            Totals(SizeOf(AllBlocks(segs)), |AllBlocks(segs)|, |segs|,
                   FirstSize(AllBlocks(segs)), |Freq.Hashes(AllBlocks(segs))|, |MinSet(segs)|)
  {
    SumTotalsAdmitted(segs, mid, partitions, partitions);
    SumTotalsFirst(segs, mid, partitions, partitions);
    SumTotalsSets(segs, mid, partitions, partitions);
    SegmentsSplit(segs, mid, partitions);
    BlocksSplit(segs, mid, partitions);
    BytesSplit(segs, mid, partitions);
    FirstSizeSplit(AllBlocks(segs), mid, partitions);
    UniqueSplit(AllBlocks(segs), mid, partitions);
    BinsSplit(segs, mid, partitions);
  }

  // ------------------------------------------------------- the partition loop

  /** `theoreticalIndex` (checksum to sightings) together with the running `theory_dedup_size`. */
  datatype Theory = Theory(index: map<Checksum, nat>, dedupSize: nat)

  /** One block of the theoretical scan: blocks of other partitions are passed over; the first sighting of a checksum adds the block's size. */
  function TheoryBlock(th: Theory, b: TraceBlock, mid: Checksum -> nat, partitions: nat, parti: nat): Theory
    requires partitions > 0
  {
    if InPart(mid, partitions, parti, b.cksum) then
      var count := (if b.cksum in th.index then th.index[b.cksum] else 0) + 1;
      Theory(th.index[b.cksum := count], th.dedupSize + (if count == 1 then b.size else 0))
    else th
  }

  /** The theoretical scan over a run of blocks. */
  function TheoryOf(th: Theory, s: seq<TraceBlock>, mid: Checksum -> nat, partitions: nat, parti: nat): Theory
    requires partitions > 0
    decreases |s|
  {
    if s == [] then th else TheoryBlock(TheoryOf(th, s[..|s| - 1], mid, partitions, parti), s[|s| - 1], mid, partitions, parti)
  }

  /** What the scan state means after the blocks `done`: the partition's distinct checksums, each seen at least once, and `base` plus their first-sighting sizes. */
  ghost predicate TheoryState(th: Theory, base: nat, done: seq<TraceBlock>, mid: Checksum -> nat, partitions: nat, parti: nat)
    requires partitions > 0
  {
    var mine := BlocksIn(done, mid, partitions, parti);
    th.index.Keys == Freq.Hashes(mine) &&
    (forall h :: h in th.index ==> th.index[h] >= 1) &&
    th.dedupSize == base + FirstSize(mine)
  }

  lemma TheoryBlockStep(th: Theory, base: nat, done: seq<TraceBlock>, b: TraceBlock, mid: Checksum -> nat, partitions: nat, parti: nat)
    requires partitions > 0
    requires TheoryState(th, base, done, mid, partitions, parti)
    ensures TheoryState(TheoryBlock(th, b, mid, partitions, parti), base, done + [b], mid, partitions, parti)
  {
    var mine := BlocksIn(done, mid, partitions, parti);
    BlocksInSnoc(done, b, mid, partitions, parti);
    if InPart(mid, partitions, parti, b.cksum) {
      Freq.HashesSnoc(mine, b);
      assert FirstSize(mine + [b]) == FirstSize(mine) + (if b.cksum in Freq.Hashes(mine) then 0 else b.size);
    }
  }

  lemma {:induction false} TheoryOfMeaning(th: Theory, base: nat, done: seq<TraceBlock>, s: seq<TraceBlock>, mid: Checksum -> nat, partitions: nat, parti: nat)
    requires partitions > 0
    requires TheoryState(th, base, done, mid, partitions, parti)
    ensures TheoryState(TheoryOf(th, s, mid, partitions, parti), base, done + s, mid, partitions, parti)
    decreases |s|
  {
    if s == [] {
      assert done + s == done;
    } else {
      var q := s[..|s| - 1];
      var b := s[|s| - 1];
      TheoryOfMeaning(th, base, done, q, mid, partitions, parti);
      TheoryBlockStep(TheoryOf(th, q, mid, partitions, parti), base, done + q, b, mid, partitions, parti);
      assert done + q + [b] == done + s;
    }
  }

  /** The inner block loop of the theoretical accounting. */
  method TheoryScan(index0: map<Checksum, nat>, size0: nat, blocks: seq<TraceBlock>, mid: Checksum -> nat, partitions: nat, parti: nat)
    returns (index: map<Checksum, nat>, dedupSize: nat)
    requires partitions > 0
    ensures Theory(index, dedupSize) == TheoryOf(Theory(index0, size0), blocks, mid, partitions, parti)
  {
    index, dedupSize := index0, size0;
    var j := 0;
    assert blocks[..0] == [];
    while j < |blocks|
      invariant 0 <= j <= |blocks|
      invariant Theory(index, dedupSize) == TheoryOf(Theory(index0, size0), blocks[..j], mid, partitions, parti)
    {
      var b := blocks[j];
      assert blocks[..j + 1] == blocks[..j] + [b];
      if mid(b.cksum) % partitions == parti {
        var count := (if b.cksum in index then index[b.cksum] else 0) + 1;
        index := index[b.cksum := count];
        if count == 1 {
          dedupSize := dedupSize + b.size;
        }
      }
      j := j + 1;
    }
    assert blocks[..j] == blocks;
  }

  /** `Bin::AddSegment` on the bin of the segment's min-hash, creating the bin on first use. */
  function BinsAdd(bins: map<Checksum, seq<BinSeg>>, s: BinSeg): map<Checksum, seq<BinSeg>>
  {
    bins[s.minhash := (if s.minhash in bins then bins[s.minhash] else []) + [s]]
  }

  /** The bins after adding a run of segments to an empty map. */
  function BinsOf(segs: seq<BinSeg>): map<Checksum, seq<BinSeg>>
    decreases |segs|
  {
    if segs == [] then map[] else BinsAdd(BinsOf(segs[..|segs| - 1]), segs[|segs| - 1])
  }

  /** Every segment of a bin carries the bin's min-hash. */
  ghost predicate BinsKeyed(bins: map<Checksum, seq<BinSeg>>)
  {
    forall h, i :: h in bins && 0 <= i < |bins[h]| ==> bins[h][i].minhash == h
  }

  lemma BinsAddKeyed(bins: map<Checksum, seq<BinSeg>>, s: BinSeg)
    requires BinsKeyed(bins)
    ensures BinsKeyed(BinsAdd(bins, s))
  {
    var added: map<Checksum, seq<BinSeg>> := BinsAdd(bins, s);
    forall h | h in added
      ensures forall i :: 0 <= i < |added[h]| ==> added[h][i].minhash == h
    {
      if h != s.minhash {
        assert added[h] == bins[h];
      }
    }
  }

  /** There is one bin per distinct min-hash, and every segment of a bin carries the bin's min-hash. */
  lemma {:induction false} BinsOfMeaning(segs: seq<BinSeg>)
    ensures BinsOf(segs).Keys == MinSet(segs)
    ensures BinsKeyed(BinsOf(segs))
    decreases |segs|
  {
    if segs != [] {
      BinsOfMeaning(segs[..|segs| - 1]);
      BinsAddKeyed(BinsOf(segs[..|segs| - 1]), segs[|segs| - 1]);
    }
  }

  // ------------------------------------------------------------ the reader

  /**
   * `load_segment` followed by `Segment::Final`: the next segment of the
   * stream and its min-hash, which `minhash` stands for.
   */
  method LoadBinSegment(stream: seq<TraceBlock>, pos: nat, minhash: seq<TraceBlock> -> Checksum)
    returns (ok: bool, seg: BinSeg, next: nat)
    requires pos <= |stream|
    ensures pos <= next <= |stream|
    ensures seg.blocks == NonZero(stream[pos..next]) && seg.minhash == minhash(seg.blocks)
    ensures ok <==> |seg.blocks| > 0
    ensures ok ==> WellCut(seg.blocks) && next > pos
    ensures next < |stream| ==> SizeOf(seg.blocks) >= SEGMENT_LIMIT
  {
    var blocks;
    ok, blocks, next := LoadSegment(stream, pos);
    seg := BinSeg(blocks, minhash(blocks));
  }

  /** The `while (load_segment(seg, current_input))` loop over one trace file: its segments, in order. */
  method LoadBinSegments(stream: seq<TraceBlock>, minhash: seq<TraceBlock> -> Checksum) returns (segs: seq<BinSeg>)
    ensures AllBlocks(segs) == NonZero(stream)
    ensures forall i :: 0 <= i < |segs| ==> WellCut(segs[i].blocks) && segs[i].minhash == minhash(segs[i].blocks)
  {
    segs := [];
    var pos := 0;
    var ok := true;
    while ok
      invariant 0 <= pos <= |stream|
      invariant AllBlocks(segs) == NonZero(stream[..pos])
      invariant forall i :: 0 <= i < |segs| ==> WellCut(segs[i].blocks) && segs[i].minhash == minhash(segs[i].blocks)
      invariant !ok ==> pos == |stream|
      decreases |stream| - pos, ok
    {
      var seg, next;
      ok, seg, next := LoadBinSegment(stream, pos, minhash);
      assert stream[..next] == stream[..pos] + stream[pos..next];
      NonZeroAppend(stream[..pos], stream[pos..next]);
      if ok {
        AllBlocksSnoc(segs, seg);
        segs := segs + [seg];
      }
      pos := next;
    }
    assert stream[..pos] == stream;
  }

  // ------------------------------------------------------- one partition

  /** `total_size` and `total_blocks` after the block loop over an admitted segment. */
  method CountBlocks(t0: Totals, blocks: seq<TraceBlock>) returns (t: Totals)
    ensures t == t0.(totalSize := t0.totalSize + SizeOf(blocks), totalBlocks := t0.totalBlocks + |blocks|)
  {
    t := t0;
    var j := 0;
    while j < |blocks|
      invariant 0 <= j <= |blocks|
      invariant t == t0.(totalSize := t0.totalSize + SizeOf(blocks[..j]), totalBlocks := t0.totalBlocks + j)
    {
      SizeOfSnoc(blocks[..j], blocks[j]);
      assert blocks[..j + 1] == blocks[..j] + [blocks[j]];
      t := t.(totalSize := t.totalSize + blocks[j].size, totalBlocks := t.totalBlocks + 1);
      j := j + 1;
    }
    assert blocks[..j] == blocks;
  }

  /** The state of a partition pass after the segments `done`, starting from the counters `t0`. */
  ghost predicate PassState(t: Totals, bins: map<Checksum, seq<BinSeg>>, index: map<Checksum, nat>, t0: Totals,
                            done: seq<BinSeg>, mid: Checksum -> nat, partitions: nat, parti: nat)
    requires partitions > 0
  {
    var a := Admitted(done, mid, partitions, parti);
    bins == BinsOf(a) &&
    TheoryState(Theory(index, t.theoryDedupSize), t0.theoryDedupSize, AllBlocks(done), mid, partitions, parti) &&
    t.totalSize == t0.totalSize + SizeOf(AllBlocks(a)) &&
    t.totalBlocks == t0.totalBlocks + |AllBlocks(a)| &&
    t.totalSegments == t0.totalSegments + |a| &&
    t.theoryDedupBlocks == t0.theoryDedupBlocks && t.totalBins == t0.totalBins
  }

  lemma PassStep(t: Totals, bins: map<Checksum, seq<BinSeg>>, index: map<Checksum, nat>, t0: Totals,
                 done: seq<BinSeg>, s: BinSeg, mid: Checksum -> nat, partitions: nat, parti: nat,
                 t': Totals, bins': map<Checksum, seq<BinSeg>>, index': map<Checksum, nat>)
    requires partitions > 0
    requires PassState(t, bins, index, t0, done, mid, partitions, parti)
    requires var admit := InPart(mid, partitions, parti, s.minhash);
             bins' == (if admit then BinsAdd(bins, s) else bins) &&
             t'.totalSize == t.totalSize + (if admit then SizeOf(s.blocks) else 0) &&
             t'.totalBlocks == t.totalBlocks + (if admit then |s.blocks| else 0) &&
             t'.totalSegments == t.totalSegments + (if admit then 1 else 0) &&
             t'.theoryDedupBlocks == t.theoryDedupBlocks && t'.totalBins == t.totalBins
    requires Theory(index', t'.theoryDedupSize) == TheoryOf(Theory(index, t.theoryDedupSize), s.blocks, mid, partitions, parti)
    ensures PassState(t', bins', index', t0, done + [s], mid, partitions, parti)
  {
    var a := Admitted(done, mid, partitions, parti);
    AdmittedSnoc(done, s, mid, partitions, parti);
    AllBlocksSnoc(done, s);
    if InPart(mid, partitions, parti, s.minhash) {
      AllBlocksSnoc(a, s);
      SizeOfAppend(AllBlocks(a), s.blocks);
    }
    TheoryOfMeaning(Theory(index, t.theoryDedupSize), t0.theoryDedupSize, AllBlocks(done), s.blocks, mid, partitions, parti);
  }

  lemma PassStart(t0: Totals, mid: Checksum -> nat, partitions: nat, parti: nat)
    requires partitions > 0
    ensures PassState(t0, map[], map[], t0, [], mid, partitions, parti)
  {
  }

  /** At the end of a pass the counters have grown by the partition's contribution. */
  lemma PassEnd(t: Totals, bins: map<Checksum, seq<BinSeg>>, index: map<Checksum, nat>, t0: Totals,
                segs: seq<BinSeg>, mid: Checksum -> nat, partitions: nat, parti: nat)
    requires partitions > 0
    requires PassState(t, bins, index, t0, segs, mid, partitions, parti)
    ensures bins.Keys == PartOf(MinSet(segs), mid, partitions, parti)
    ensures index.Keys == PartOf(Freq.Hashes(AllBlocks(segs)), mid, partitions, parti)
    ensures t.(theoryDedupBlocks := t.theoryDedupBlocks + |index|, totalBins := t.totalBins + |bins|) ==
            Plus(t0, Contribution(segs, mid, partitions, parti))
  {
    var c := Contribution(segs, mid, partitions, parti);
    BinsAtEnd(bins, segs, mid, partitions, parti);
    IndexAtEnd(index, segs, mid, partitions, parti);
    PassEndTotals(t, t0, |index|, |bins|, c);
  }

  lemma BinsAtEnd(bins: map<Checksum, seq<BinSeg>>, segs: seq<BinSeg>, mid: Checksum -> nat, partitions: nat, parti: nat)
    requires partitions > 0
    requires bins == BinsOf(Admitted(segs, mid, partitions, parti))
    ensures bins.Keys == PartOf(MinSet(segs), mid, partitions, parti)
    ensures |bins| == Contribution(segs, mid, partitions, parti).totalBins
  {
    var a := Admitted(segs, mid, partitions, parti);
    BinsOfMeaning(a);
    MinSetOfPart(segs, mid, partitions, parti);
    assert |bins| == |bins.Keys|;
  }

  lemma IndexAtEnd(index: map<Checksum, nat>, segs: seq<BinSeg>, mid: Checksum -> nat, partitions: nat, parti: nat)
    requires partitions > 0
    requires index.Keys == Freq.Hashes(BlocksIn(AllBlocks(segs), mid, partitions, parti))
    ensures index.Keys == PartOf(Freq.Hashes(AllBlocks(segs)), mid, partitions, parti)
    ensures |index| == Contribution(segs, mid, partitions, parti).theoryDedupBlocks
  {
    HashesOfPart(AllBlocks(segs), mid, partitions, parti);
    assert |index| == |index.Keys|;
  }

  lemma PassEndTotals(t: Totals, t0: Totals, indexSize: nat, binsSize: nat, c: Totals)
    requires t.totalSize == t0.totalSize + c.totalSize && t.totalBlocks == t0.totalBlocks + c.totalBlocks
    requires t.totalSegments == t0.totalSegments + c.totalSegments
    requires t.theoryDedupSize == t0.theoryDedupSize + c.theoryDedupSize
    requires t.theoryDedupBlocks == t0.theoryDedupBlocks && indexSize == c.theoryDedupBlocks
    requires t.totalBins == t0.totalBins && binsSize == c.totalBins
    ensures t.(theoryDedupBlocks := t.theoryDedupBlocks + indexSize, totalBins := t.totalBins + binsSize) == Plus(t0, c)
  {
  }

  /** One segment of a partition pass. */
  method PassSegment(t: Totals, bins: map<Checksum, seq<BinSeg>>, index: map<Checksum, nat>, ghost t0: Totals,
                     ghost done: seq<BinSeg>, s: BinSeg, mid: Checksum -> nat, partitions: nat, parti: nat)
    returns (t1: Totals, bins1: map<Checksum, seq<BinSeg>>, index1: map<Checksum, nat>)
    requires partitions > 0
    requires PassState(t, bins, index, t0, done, mid, partitions, parti)
    ensures PassState(t1, bins1, index1, t0, done + [s], mid, partitions, parti)
  {
    t1, bins1 := t, bins;
    if mid(s.minhash) % partitions == parti {
      bins1 := BinsAdd(bins, s);
      t1 := CountBlocks(t, s.blocks);
      t1 := t1.(totalSegments := t1.totalSegments + 1);
    }
    var dedupSize;
    index1, dedupSize := TheoryScan(index, t1.theoryDedupSize, s.blocks, mid, partitions, parti);
    t1 := t1.(theoryDedupSize := dedupSize);
    PassStep(t, bins, index, t0, done, s, mid, partitions, parti, t1, bins1, index1);
  }

  /** The segment loop of one partition, from the state after `t0` with empty bins and index. */
  method PassSegments(segs: seq<BinSeg>, mid: Checksum -> nat, partitions: nat, parti: nat, t0: Totals)
    returns (t: Totals, bins: map<Checksum, seq<BinSeg>>, index: map<Checksum, nat>)
    requires partitions > 0
    ensures PassState(t, bins, index, t0, segs, mid, partitions, parti)
  {
    t, bins, index := t0, map[], map[];
    PassStart(t0, mid, partitions, parti);
    var i := 0;
    ghost var done: seq<BinSeg> := [];
    while i < |segs|
      invariant 0 <= i <= |segs| && done == segs[..i]
      invariant PassState(t, bins, index, t0, done, mid, partitions, parti)
    {
      t, bins, index := PassSegment(t, bins, index, t0, done, segs[i], mid, partitions, parti);
      done := done + [segs[i]];
      i := i + 1;
    }
    assert done == segs;
  }

  /**
   * One partition: every segment routed to `parti` joins the bin of its
   * min-hash and adds its bytes, blocks and itself to the totals; every
   * block routed to `parti` is counted in the theoretical index, adding its
   * size on first sighting. At the end the sizes of the index and of the
   * bin map are added in.
   */
  method PartitionPass(segs: seq<BinSeg>, mid: Checksum -> nat, partitions: nat, parti: nat, t0: Totals)
    returns (t: Totals, bins: map<Checksum, seq<BinSeg>>, index: map<Checksum, nat>)
    requires partitions > 0
    ensures bins.Keys == PartOf(MinSet(segs), mid, partitions, parti)
    ensures index.Keys == PartOf(Freq.Hashes(AllBlocks(segs)), mid, partitions, parti)
    ensures t == Plus(t0, Contribution(segs, mid, partitions, parti))
  {
    t, bins, index := PassSegments(segs, mid, partitions, parti, t0);
    PassEnd(t, bins, index, t0, segs, mid, partitions, parti);
    t := t.(theoryDedupBlocks := t.theoryDedupBlocks + |index|, totalBins := t.totalBins + |bins|);
  }

  // ------------------------------------------------------ all partitions

  lemma SumTotalsNext(segs: seq<BinSeg>, mid: Checksum -> nat, partitions: nat, n: nat)
    requires partitions > 0
    ensures SumTotals(segs, mid, partitions, n + 1) == Plus(SumTotals(segs, mid, partitions, n), Contribution(segs, mid, partitions, n))
  {
  }

  /** The number of partitions, fixed in the program. */
  const PARTITIONS: nat := 8

  /**
   * The partition loop: the counters start at zero and are never reset;
   * the bins and the theoretical index start empty in every partition. At
   * the end the counters describe the whole trace.
   */
  method PartitionLoop(segs: seq<BinSeg>, mid: Checksum -> nat, partitions: nat) returns (t: Totals)
    requires partitions > 0
    ensures t == Totals(SizeOf(AllBlocks(segs)), |AllBlocks(segs)|, |segs|,
                        FirstSize(AllBlocks(segs)), |Freq.Hashes(AllBlocks(segs))|, |MinSet(segs)|)
  {
    t := Totals(0, 0, 0, 0, 0, 0);
    var parti := 0;
    while parti < partitions
      invariant 0 <= parti <= partitions
      invariant t == SumTotals(segs, mid, partitions, parti)
    {
      var bins, index;
      SumTotalsNext(segs, mid, partitions, parti);
      t, bins, index := PartitionPass(segs, mid, partitions, parti, t);
      parti := parti + 1;
    }
    AllPartitionsCoverTrace(segs, mid, partitions);
  }

  /** The binning run over a trace with the program's eight partitions. */
  method BinningPartitions(segs: seq<BinSeg>, mid: Checksum -> nat) returns (t: Totals)
    ensures t == Totals(SizeOf(AllBlocks(segs)), |AllBlocks(segs)|, |segs|,
                        FirstSize(AllBlocks(segs)), |Freq.Hashes(AllBlocks(segs))|, |MinSet(segs)|)
  {
    t := PartitionLoop(segs, mid, PARTITIONS);
  }
}
