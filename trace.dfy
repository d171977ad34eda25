/**
 * Block traces as the simulations read them: a stream of (checksum, size)
 * records cut into segments of about 2 MiB. Zero-sized records are a known
 * scanner defect and are skipped.
 */
module Trace {
  import opened SnapshotTypes

  /** A segment is closed by the block that brings it to at least 2 MiB. */
  const SEGMENT_LIMIT: nat := 2 * 1024 * 1024

  datatype TraceBlock = TraceBlock(cksum: Checksum, size: nat)

  /** The blocks of a stream that the reader keeps: those of non-zero size. */
  function NonZero(s: seq<TraceBlock>): (r: seq<TraceBlock>)
    ensures |r| <= |s|
    decreases |s|
  {
    if s == [] then []
    else NonZero(s[..|s| - 1]) + (if s[|s| - 1].size == 0 then [] else [s[|s| - 1]])
  }

  lemma {:induction false} NonZeroPositive(s: seq<TraceBlock>)
    ensures forall i :: 0 <= i < |NonZero(s)| ==> NonZero(s)[i].size > 0
    decreases |s|
  {
    if s != [] {
      NonZeroPositive(s[..|s| - 1]);
    }
  }

  /** The total size of a block list. */
  function SizeOf(s: seq<TraceBlock>): nat
    decreases |s|
  {
    if s == [] then 0 else SizeOf(s[..|s| - 1]) + s[|s| - 1].size
  }

  /** The concatenation of a list of segments. */
  function Flatten(segs: seq<seq<TraceBlock>>): seq<TraceBlock>
    decreases |segs|
  {
    if segs == [] then [] else Flatten(segs[..|segs| - 1]) + segs[|segs| - 1]
  }

  lemma {:induction false} NonZeroAppend(a: seq<TraceBlock>, b: seq<TraceBlock>)
    ensures NonZero(a + b) == NonZero(a) + NonZero(b)
    decreases |b|
  {
    if b == [] {
      assert a + b == a;
    } else {
      assert (a + b)[..|a + b| - 1] == a + b[..|b| - 1];
      NonZeroAppend(a, b[..|b| - 1]);
    }
  }

  lemma {:induction false} SizeOfAppend(a: seq<TraceBlock>, b: seq<TraceBlock>)
    ensures SizeOf(a + b) == SizeOf(a) + SizeOf(b)
    decreases |b|
  {
    if b == [] {
      assert a + b == a;
    } else {
      assert (a + b)[..|a + b| - 1] == a + b[..|b| - 1];
      SizeOfAppend(a, b[..|b| - 1]);
    }
  }

  lemma NonZeroSnoc(s: seq<TraceBlock>, b: TraceBlock)
    ensures NonZero(s + [b]) == if b.size == 0 then NonZero(s) else NonZero(s) + [b]
  {
    assert (s + [b])[..|s|] == s;
    assert NonZero(s) + [] == NonZero(s);
  }

  lemma SizeOfSnoc(s: seq<TraceBlock>, b: TraceBlock)
    ensures SizeOf(s + [b]) == SizeOf(s) + b.size
    ensures (s + [b])[..|s|] == s
  {
    assert (s + [b])[..|s|] == s;
  }

  /** A segment the reader can produce: non-empty, sizes positive, closed by its last block or by the stream's end. */
  ghost predicate WellCut(seg: seq<TraceBlock>)
  {
    |seg| > 0 && (forall i :: 0 <= i < |seg| ==> seg[i].size > 0) && SizeOf(seg[..|seg| - 1]) < SEGMENT_LIMIT
  }

  /**
   * `load_segment`: read records from `pos`, skipping zero-sized ones,
   * until the segment reaches 2 MiB or the stream ends. It returns false
   * iff no block was kept.
   */
  method LoadSegment(stream: seq<TraceBlock>, pos: nat) returns (ok: bool, seg: seq<TraceBlock>, next: nat)
    requires pos <= |stream|
    ensures pos <= next <= |stream|
    ensures seg == NonZero(stream[pos..next])
    ensures ok <==> |seg| > 0
    ensures ok ==> WellCut(seg)
    ensures next < |stream| ==> SizeOf(seg) >= SEGMENT_LIMIT
    ensures ok ==> next > pos
  {
    seg := [];
    next := pos;
    assert stream[pos..next] == [];
    while next < |stream|
      invariant pos <= next <= |stream|
      invariant seg == NonZero(stream[pos..next])
      invariant |seg| > 0 ==> SizeOf(seg[..|seg| - 1]) < SEGMENT_LIMIT
      invariant SizeOf(seg) < SEGMENT_LIMIT
    {
      var b := stream[next];
      assert NonZero(stream[pos..next + 1]) == if b.size == 0 then seg else seg + [b] by {
        assert stream[pos..next + 1] == stream[pos..next] + [b];
        NonZeroSnoc(stream[pos..next], b);
      }
      next := next + 1;
      if b.size != 0 {
        assert SizeOf(seg + [b]) == SizeOf(seg) + b.size && (seg + [b])[..|seg|] == seg by {
          SizeOfSnoc(seg, b);
        }
        seg := seg + [b];
        if SizeOf(seg) >= SEGMENT_LIMIT {
          break;
        }
      }
    }
    NonZeroPositive(stream[pos..next]);
    ok := !(SizeOf(seg) == 0 || |seg| == 0);
  }

  /**
   * The `while (load_segment(seg, is))` driver: the segments read until
   * the reader reports false. Together they hold exactly the non-zero
   * records of the stream, in order.
   */
  method LoadSegments(stream: seq<TraceBlock>) returns (segs: seq<seq<TraceBlock>>)
    ensures Flatten(segs) == NonZero(stream)
    ensures forall i :: 0 <= i < |segs| ==> WellCut(segs[i])
  {
    segs := [];
    var pos := 0;
    var ok := true;
    while ok
      invariant 0 <= pos <= |stream|
      invariant Flatten(segs) == NonZero(stream[..pos])
      invariant forall i :: 0 <= i < |segs| ==> WellCut(segs[i])
      invariant !ok ==> pos == |stream|
      decreases |stream| - pos, ok
    {
      var seg, next;
      ok, seg, next := LoadSegment(stream, pos);
      assert stream[..next] == stream[..pos] + stream[pos..next];
      NonZeroAppend(stream[..pos], stream[pos..next]);
      if ok {
        assert (segs + [seg])[..|segs|] == segs;
        segs := segs + [seg];
      }
      pos := next;
    }
    assert stream[..pos] == stream;
  }
}
