/**
 * The content-addressable index: a global checksum -> offset table kept in
 * a memcached server. The server is modelled as a partial map from key
 * bytes to value bytes; whether a request reaches it (`delivered`) and what
 * a multi-get hands back (`fetched`) are parameters, since the client
 * library is not part of this model.
 */
module Cds {
  import opened Bytes
  import opened Maybe
  import opened SnapshotTypes

  type Server = map<seq<byte>, seq<byte>>

  /** What a plain `Get` of `k` finds: the stored value, when it is exactly 8 bytes. */
  function GetResult(server: Server, k: seq<byte>): (r: Option<u64>)
    ensures r.Some? <==> k in server && |server[k]| == 8
    ensures r.Some? ==> U64Bytes(r.value) == server[k]
  {
    if k in server && |server[k]| == 8 then Some(U64Of(server[k])) else None
  }

  /** One record of a multi-get fetch: its own return code, key and value bytes. */
  datatype Fetched = Fetched(rcOk: bool, key: seq<byte>, value: seq<byte>)

  /**
   * `memcpy(&offset, value, length)`: the first `length` bytes of the
   * (little-endian) offset are overwritten and the rest keep the previous
   * value's bytes. Values longer than 8 bytes contribute their first 8.
   */
  function Overlay(prev: u64, v: seq<byte>): (r: u64)
    ensures |v| >= 8 ==> U64Bytes(r) == v[..8]
    ensures |v| < 8 ==> U64Bytes(r) == v + U64Bytes(prev)[|v|..]
  {
    var n := if |v| < 8 then |v| else 8;
    U64Of(v[..n] + U64Bytes(prev)[n..])
  }

  /**
   * The result map a fetch loop builds, with the persistent `offset`
   * variable it threads through (starting from `stale`, its indeterminate
   * initial value). With `checked`, records whose value is not exactly 8
   * bytes are skipped, as `Get` does; without it they are copied as written.
   */
  function FetchFold(fs: seq<Fetched>, stale: u64, checked: bool): (r: (map<seq<byte>, u64>, u64))
    ensures forall k :: k in r.0 <==> exists i :: 0 <= i < |fs| && fs[i].rcOk && fs[i].key == k &&
                                                   (checked ==> |fs[i].value| == 8)
    decreases |fs|
  {
    if fs == [] then (map[], stale)
    else
      var prefix := FetchFold(fs[..|fs| - 1], stale, checked);
      var f := fs[|fs| - 1];
      if f.rcOk && (checked ==> |f.value| == 8) then
        var o := Overlay(prefix.1, f.value);
        (prefix.0[f.key := o], o)
      else prefix
  }

  /** The fetch agrees with the server: every record carries the server's value for its key. */
  ghost predicate FetchAgrees(fs: seq<Fetched>, server: Server)
  {
    forall i :: 0 <= i < |fs| && fs[i].rcOk ==> fs[i].key in server && server[fs[i].key] == fs[i].value
  }

  /** Every requested key that the server holds came back in a successful record. */
  ghost predicate FetchComplete(fs: seq<Fetched>, keys: seq<Checksum>, server: Server)
  {
    forall i :: 0 <= i < |keys| && keys[i] in server ==>
      exists j :: 0 <= j < |fs| && fs[j].rcOk && fs[j].key == keys[i]
  }

  /** The answer the join gives for one key. */
  function Answer(m: map<seq<byte>, u64>, k: seq<byte>): (r: Option<u64>)
    ensures r.Some? <==> k in m
    ensures r.Some? ==> r.value == m[k]
  {
    if k in m then Some(m[k]) else None
  }

  /** In a checked fetch that agrees with the server, every mapped key holds the server's 8-byte value. */
  lemma {:induction false} CheckedFetchMatchesServer(fs: seq<Fetched>, stale: u64, server: Server)
    requires FetchAgrees(fs, server)
    ensures forall k :: k in FetchFold(fs, stale, true).0 ==> GetResult(server, k) == Some(FetchFold(fs, stale, true).0[k])
    decreases |fs|
  {
    if fs != [] {
      var pre := fs[..|fs| - 1];
      assert FetchAgrees(pre, server) by {
        forall i | 0 <= i < |pre| && pre[i].rcOk ensures pre[i].key in server && server[pre[i].key] == pre[i].value {
          assert pre[i] == fs[i];
        }
      }
      CheckedFetchMatchesServer(pre, stale, server);
      var f := fs[|fs| - 1];
      if f.rcOk && |f.value| == 8 {
        var o := Overlay(FetchFold(pre, stale, true).1, f.value);
        assert U64Bytes(o) == f.value[..8] == f.value;
      }
    }
  }

  /**
   * With length-checked records, a successful multi-get that agrees with
   * the server and misses none of its keys answers every key exactly as a
   * sequential `Get` would.
   */
  lemma CheckedBatchMatchesGets(keys: seq<Checksum>, fs: seq<Fetched>, stale: u64, server: Server)
    requires FetchAgrees(fs, server) && FetchComplete(fs, keys, server)
    ensures forall i :: 0 <= i < |keys| ==> Answer(FetchFold(fs, stale, true).0, keys[i]) == GetResult(server, keys[i])
  {
    CheckedFetchMatchesServer(fs, stale, server);
    var m := FetchFold(fs, stale, true).0;
    forall i | 0 <= i < |keys| ensures Answer(m, keys[i]) == GetResult(server, keys[i]) {
      if GetResult(server, keys[i]).Some? {
        var j :| 0 <= j < |fs| && fs[j].rcOk && fs[j].key == keys[i];
        assert keys[i] in m;
      }
    }
  }

  /**
   * As written, the fetch loop copies a value of any length: a key whose
   * stored value is 4 bytes is reported found by `BatchGet` (its upper
   * bytes left over from whatever the offset variable held) although `Get`
   * of the same key reports it missing.
   */
  lemma ShortValueBreaksBatchEquivalence(k: Checksum, stale: u64)
    ensures var server := map[k := [1, 0, 0, 0]];
            var fs := [Fetched(true, k, [1, 0, 0, 0])];
            FetchAgrees(fs, server) && FetchComplete(fs, [k], server) &&
            Answer(FetchFold(fs, stale, false).0, k).Some? && GetResult(server, k) == None
  {
    var fs := [Fetched(true, k, [1, 0, 0, 0])];
    assert fs[0].rcOk && fs[0].key == k;
  }

  /** Every value the server holds is an 8-byte offset, as every `Set` writes. */
  ghost predicate EightByteValues(server: Server)
  {
    forall k :: k in server ==> |server[k]| == 8
  }

  /** When every successful record carries 8 bytes, the length check changes nothing. */
  lemma {:induction false} EightByteFetchIgnoresCheck(fs: seq<Fetched>, stale: u64)
    requires forall i :: 0 <= i < |fs| && fs[i].rcOk ==> |fs[i].value| == 8
    ensures FetchFold(fs, stale, false) == FetchFold(fs, stale, true)
    decreases |fs|
  {
    if fs != [] {
      var pre := fs[..|fs| - 1];
      assert forall i :: 0 <= i < |pre| ==> pre[i] == fs[i];
      EightByteFetchIgnoresCheck(pre, stale);
    }
  }

  /**
   * On a server holding only 8-byte values, as `LoadCds` leaves it, the
   * as-written multi-get that agrees with the server and misses none of
   * its keys answers every key exactly as a sequential `Get` would.
   */
  lemma UncheckedBatchMatchesGets(keys: seq<Checksum>, fs: seq<Fetched>, stale: u64, server: Server)
    requires EightByteValues(server) && FetchAgrees(fs, server) && FetchComplete(fs, keys, server)
    ensures forall i :: 0 <= i < |keys| ==> Answer(FetchFold(fs, stale, false).0, keys[i]) == GetResult(server, keys[i])
  {
    EightByteFetchIgnoresCheck(fs, stale);
    CheckedBatchMatchesGets(keys, fs, stale, server);
  }

  /** A block of the CDS dump: its checksum and its offset in the common data store. */
  datatype CdsBlock = CdsBlock(cksum: Checksum, offset: u64)

  /**
   * The server after one `Set` per block, each one landing only when its
   * request is delivered: no key is lost, and a server of 8-byte values
   * stays one.
   */
  function SetAll(server: Server, blocks: seq<CdsBlock>, delivered: seq<bool>): (r: Server)
    requires |delivered| == |blocks|
    ensures server.Keys <= r.Keys
    ensures EightByteValues(server) ==> EightByteValues(r)
    decreases |blocks|
  {
    if blocks == [] then server
    else
      var s := SetAll(server, blocks[..|blocks| - 1], delivered[..|blocks| - 1]);
      var b := blocks[|blocks| - 1];
      if delivered[|blocks| - 1] then s[b.cksum := U64Bytes(b.offset)] else s
  }

  /**
   * The keys after `LoadCds` are the old ones plus the delivered checksums,
   * and every value is either the old one or a delivered block's offset.
   */
  lemma {:induction false} SetAllMeaning(server: Server, blocks: seq<CdsBlock>, delivered: seq<bool>)
    requires |delivered| == |blocks|
    ensures var r := SetAll(server, blocks, delivered);
            forall k :: k in r <==> k in server || exists i :: 0 <= i < |blocks| && delivered[i] && blocks[i].cksum == k
    ensures var r := SetAll(server, blocks, delivered);
            forall k :: k in r ==> (k in server && r[k] == server[k]) ||
                                   exists i :: 0 <= i < |blocks| && delivered[i] && r[k] == U64Bytes(blocks[i].offset)
    decreases |blocks|
  {
    if blocks != [] {
      var n := |blocks| - 1;
      SetAllMeaning(server, blocks[..n], delivered[..n]);
      assert forall i :: 0 <= i < n ==> blocks[..n][i] == blocks[i] && delivered[..n][i] == delivered[i];
    }
  }

  /** The number of requests that were not delivered. */
  function Failures(delivered: seq<bool>): (n: nat)
    ensures n <= |delivered|
  {
    if delivered == [] then 0
    else Failures(delivered[..|delivered| - 1]) + (if delivered[|delivered| - 1] then 0 else 1)
  }

  /** The offset of the last block with checksum `k`. */
  function LastOffset(blocks: seq<CdsBlock>, k: Checksum): Option<u64>
    decreases |blocks|
  {
    if blocks == [] then None
    else if blocks[|blocks| - 1].cksum == k then Some(blocks[|blocks| - 1].offset)
    else LastOffset(blocks[..|blocks| - 1], k)
  }

  /** `LastOffset` finds a block exactly when one carries `k`, and then the last such block. */
  lemma {:induction false} LastOffsetMeaning(blocks: seq<CdsBlock>, k: Checksum)
    ensures LastOffset(blocks, k).Some? <==> exists i :: 0 <= i < |blocks| && blocks[i].cksum == k
    ensures LastOffset(blocks, k).Some? ==>
              exists i :: 0 <= i < |blocks| && blocks[i] == CdsBlock(k, LastOffset(blocks, k).value) &&
                          forall j :: i < j < |blocks| ==> blocks[j].cksum != k
    decreases |blocks|
  {
    if blocks != [] {
      var n := |blocks| - 1;
      if blocks[n].cksum == k {
        assert blocks[n] == CdsBlock(k, LastOffset(blocks, k).value);
      } else {
        var p := blocks[..n];
        LastOffsetMeaning(p, k);
        assert forall i :: 0 <= i < n ==> p[i] == blocks[i];
        if LastOffset(p, k).Some? {
          var i :| 0 <= i < n && p[i] == CdsBlock(k, LastOffset(p, k).value) &&
                   forall j :: i < j < n ==> p[j].cksum != k;
          assert blocks[i] == CdsBlock(k, LastOffset(blocks, k).value);
        }
      }
    }
  }

  /**
   * Last write wins: when every `Set` is delivered, each checksum of the
   * dump maps to the offset of its last block, and every other key keeps
   * its old value.
   */
  lemma {:induction false} LastWriteWins(server: Server, blocks: seq<CdsBlock>, k: Checksum)
    ensures var after := SetAll(server, blocks, seq(|blocks|, _ => true));
            match LastOffset(blocks, k)
            case Some(o) => k in after && after[k] == U64Bytes(o)
            case None => (k in after <==> k in server) && (k in server ==> after[k] == server[k])
    decreases |blocks|
  {
    if blocks != [] {
      var all := seq(|blocks|, _ => true);
      var pre := blocks[..|blocks| - 1];
      assert all[..|blocks| - 1] == seq(|pre|, _ => true);
      LastWriteWins(server, pre, k);
    }
  }

  /**
   * Scenario: loading the dump A, B, C, A into an empty server with every
   * request delivered makes `Get` find A, B and C and not a fourth checksum D.
   */
  lemma ScenarioLoadThenLookup(a: Checksum, b: Checksum, c: Checksum, d: Checksum, oa: u64, ob: u64, oc: u64, oa2: u64)
    requires d != a && d != b && d != c
    ensures var after := SetAll(map[], [CdsBlock(a, oa), CdsBlock(b, ob), CdsBlock(c, oc), CdsBlock(a, oa2)], [true, true, true, true]);
            GetResult(after, a).Some? && GetResult(after, b).Some? && GetResult(after, c).Some? && GetResult(after, d).None? &&
            GetResult(after, a).value == oa2
  {
    var blocks := [CdsBlock(a, oa), CdsBlock(b, ob), CdsBlock(c, oc), CdsBlock(a, oa2)];
    assert seq(4, _ => true) == [true, true, true, true];
    LastWriteWins(map[], blocks, a);
    LastWriteWins(map[], blocks, b);
    LastWriteWins(map[], blocks, c);
    LastWriteWins(map[], blocks, d);
    LastOffsetMeaning(blocks, b);
    LastOffsetMeaning(blocks, c);
    LastOffsetMeaning(blocks, d);
    assert blocks[1].cksum == b;
    assert blocks[2].cksum == c;
  }

  /**
   * The same scenario through `BatchGet`: a multi-get of A, B, C, D that
   * agrees with the loaded server and misses none of its keys finds A (at
   * its last offset), B and C and not D.
   */
  lemma ScenarioLoadThenBatchLookup(a: Checksum, b: Checksum, c: Checksum, d: Checksum, oa: u64, ob: u64, oc: u64, oa2: u64,
                                    fs: seq<Fetched>, stale: u64)
    requires d != a && d != b && d != c
    requires var after := SetAll(map[], [CdsBlock(a, oa), CdsBlock(b, ob), CdsBlock(c, oc), CdsBlock(a, oa2)], [true, true, true, true]);
             FetchAgrees(fs, after) && FetchComplete(fs, [a, b, c, d], after)
    ensures var m := FetchFold(fs, stale, false).0;
            Answer(m, a) == Some(oa2) && Answer(m, b).Some? && Answer(m, c).Some? && Answer(m, d).None?
  {
    var after := SetAll(map[], [CdsBlock(a, oa), CdsBlock(b, ob), CdsBlock(c, oc), CdsBlock(a, oa2)], [true, true, true, true]);
    var keys := [a, b, c, d];
    ScenarioLoadThenLookup(a, b, c, d, oa, ob, oc, oa2);
    UncheckedBatchMatchesGets(keys, fs, stale, after);
    assert keys[0] == a && keys[1] == b && keys[2] == c && keys[3] == d;
  }

  /** The join loop of `BatchGet`: every fetched record that came back OK is written into the result map. */
  method JoinFetched(fetched: seq<Fetched>, stale: u64) returns (resultMap: map<seq<byte>, u64>, offset: u64)
    ensures (resultMap, offset) == FetchFold(fetched, stale, false)
  {
    resultMap, offset := map[], stale;
    var j := 0;
    while j < |fetched|
      invariant 0 <= j <= |fetched|
      invariant (resultMap, offset) == FetchFold(fetched[..j], stale, false)
    {
      var f := fetched[j];
      if f.rcOk {
        offset := Overlay(offset, f.value);
        resultMap := resultMap[f.key := offset];
      }
      assert fetched[..j + 1][..j] == fetched[..j];
      j := j + 1;
    }
    assert fetched[..j] == fetched;
  }

  /** The answer loop of `BatchGet`: a key found in the map sets its flag and offset, a missing one clears the flag. */
  method FillAnswers(keys: seq<Checksum>, resultMap: map<seq<byte>, u64>, results: array<bool>, offsets: array<u64>)
    requires results.Length == |keys| && offsets.Length == |keys|
    modifies results, offsets
    ensures forall i :: 0 <= i < |keys| ==>
      var a := Answer(resultMap, keys[i]);
      results[i] == a.Some? && offsets[i] == (if a.Some? then a.value else old(offsets[i]))
  {
    var i := 0;
    while i < |keys|
      invariant 0 <= i <= |keys|
      invariant forall n :: 0 <= n < i ==>
        var a := Answer(resultMap, keys[n]);
        results[n] == a.Some? && offsets[n] == (if a.Some? then a.value else old(offsets[n]))
      invariant forall n :: i <= n < |keys| ==> offsets[n] == old(offsets[n])
    {
      if keys[i] !in resultMap {
        results[i] := false;
      } else {
        results[i] := true;
        offsets[i] := resultMap[keys[i]];
      }
      i := i + 1;
    }
  }

  class CdsIndex {
    var server: Server

    constructor (server: Server)
      ensures this.server == server
    {
      this.server := server;
    }

    /** `Set`: true iff the server took the 8-byte offset under the checksum. */
    method Set(cksum: Checksum, offset: u64, delivered: bool) returns (ok: bool)
      modifies this
      ensures ok == delivered
      ensures server == if ok then old(server)[cksum := U64Bytes(offset)] else old(server)
    {
      if !delivered {
        return false;
      }
      server := server[cksum := U64Bytes(offset)];
      ok := true;
    }

    /**
     * `Get`: false, with the caller's offset untouched, when the request is
     * lost, the key is missing or its value is not exactly 8 bytes; otherwise
     * the stored offset.
     */
    method Get(cksum: Checksum, delivered: bool, offset: u64) returns (ok: bool, out: u64)
      ensures ok <==> delivered && GetResult(server, cksum).Some?
      ensures ok ==> out == GetResult(server, cksum).value
      ensures !ok ==> out == offset
    {
      if !delivered || cksum !in server || |server[cksum]| != 8 {
        return false, offset;
      }
      out := U64Of(server[cksum]);
      ok := true;
    }

    /** `LoadCds`: one `Set` per block of the dump, carrying on past failed ones. */
    method LoadCds(blocks: seq<CdsBlock>, delivered: seq<bool>) returns (failures: nat)
      requires |delivered| == |blocks|
      modifies this
      ensures server == SetAll(old(server), blocks, delivered)
      ensures failures == Failures(delivered)
      ensures EightByteValues(old(server)) ==> EightByteValues(server)
    {
      var i := 0;
      failures := 0;
      while i < |blocks|
        invariant 0 <= i <= |blocks|
        invariant server == SetAll(old(server), blocks[..i], delivered[..i])
        invariant failures == Failures(delivered[..i])
      {
        var ok := Set(blocks[i].cksum, blocks[i].offset, delivered[i]);
        if !ok {
          failures := failures + 1;
        }
        assert blocks[..i + 1][..i] == blocks[..i];
        assert delivered[..i + 1][..i] == delivered[..i];
        i := i + 1;
      }
      assert blocks[..i] == blocks;
      assert delivered[..i] == delivered;
    }

    /**
     * `BatchGet`: when the multi-get request is lost, false and neither
     * array is written. Otherwise the fetched records are folded into a map
     * keyed by checksum bytes (copying each value into one persistent offset
     * variable whatever its length), and key `i` is found iff it is in that
     * map, with the mapped offset; `offsets[i]` of a key not found is left alone.
     * On a server of 8-byte values, a fetch that agrees with the server and
     * misses none of its keys gives each key what `Get` would.
     */
    method BatchGet(keys: seq<Checksum>, delivered: bool, fetched: seq<Fetched>, stale: u64,
                    results: array<bool>, offsets: array<u64>) returns (ok: bool)
      requires results.Length == |keys| && offsets.Length == |keys|
      modifies results, offsets
      ensures ok == delivered
      ensures !ok ==> results[..] == old(results[..]) && offsets[..] == old(offsets[..])
      ensures ok ==> forall i :: 0 <= i < |keys| ==>
        var a := Answer(FetchFold(fetched, stale, false).0, keys[i]);
        results[i] == a.Some? && offsets[i] == (if a.Some? then a.value else old(offsets[i]))
      ensures ok ==> forall i, j :: 0 <= i < |keys| && 0 <= j < |keys| && keys[i] == keys[j] ==>
        results[i] == results[j] && (results[i] ==> offsets[i] == offsets[j])
      ensures ok && EightByteValues(server) && FetchAgrees(fetched, server) && FetchComplete(fetched, keys, server) ==>
        forall i :: 0 <= i < |keys| ==>
          results[i] == GetResult(server, keys[i]).Some? && (results[i] ==> offsets[i] == GetResult(server, keys[i]).value)
    {
      if !delivered {
        return false;
      }
      var resultMap, _ := JoinFetched(fetched, stale);
      FillAnswers(keys, resultMap, results, offsets);
      ok := true;
      if EightByteValues(server) && FetchAgrees(fetched, server) && FetchComplete(fetched, keys, server) {
        UncheckedBatchMatchesGets(keys, fetched, stale, server);
      }
    }
  }
}
