/** Bulk SUM over encrypted integers: the extension cuts the array into chunks of 256 and folds the
    partial sum into the next chunk, while the trusted server frees the inputs of every chunk.

    Sources: src/integrity_zone/int.cpp (kv_int4_sum_bulk), src/privacy_zone/tee.cpp
    (kv_int_sum_bulk), src/privacy_zone/include/kv.hpp. */
module Aggregation {
  import opened Arith
  import opened LocalStore
  import opened Rid

  const BULK_SIZE: nat := 256

  predicate InInt32(x: int) { -0x8000_0000 <= x <= 0x7fff_ffff }

  /** `local` is the live part of the worker's integer store, `global` the persistent one. */
  ghost predicate Known(local: map<nat, int>, global: map<nat, int>, rid: nat) {
    if IsLocal(rid) then RidIndex(rid) in local else rid in global
  }

  ghost function ValueOf(local: map<nat, int>, global: map<nat, int>, rid: nat): int
    requires Known(local, global, rid)
  {
    if IsLocal(rid) then local[RidIndex(rid)] else global[rid]
  }

  ghost predicate AllKnown(local: map<nat, int>, global: map<nat, int>, rids: seq<nat>) {
    forall i | 0 <= i < |rids| :: Known(local, global, rids[i])
  }

  ghost function Sum(local: map<nat, int>, global: map<nat, int>, rids: seq<nat>): int
    requires AllKnown(local, global, rids)
  {
    if rids == [] then 0
    else
      var n := |rids| - 1;
      Sum(local, global, rids[..n]) + ValueOf(local, global, rids[n])
  }

  /** The sum of one RID is the value behind it, whether that is a temporary or a persistent one. */
  lemma SumOfOne(local: map<nat, int>, global: map<nat, int>, rid: nat)
    requires if rid / 0x1_0000_0000_0000 == 0xffff then rid % 0x1_0000_0000_0000 in local else rid in global
    ensures AllKnown(local, global, [rid])
    ensures Sum(local, global, [rid]) ==
      if rid / 0x1_0000_0000_0000 == 0xffff then local[rid % 0x1_0000_0000_0000] else global[rid]
  {
    assert Sum(local, global, []) == 0;
  }

  lemma {:induction false} SumOfConcat(local: map<nat, int>, global: map<nat, int>, a: seq<nat>, b: seq<nat>)
    requires AllKnown(local, global, a) && AllKnown(local, global, b)
    ensures AllKnown(local, global, a + b)
    ensures Sum(local, global, a + b) == Sum(local, global, a) + Sum(local, global, b)
  {
    if b == [] {
      assert a + b == a;
    } else {
      var n := |b| - 1;
      SumOfConcat(local, global, a, b[..n]);
      assert (a + b)[..|a| + n] == a + b[..n];
    }
  }

  /** No partial sum leaves the 32-bit range: C leaves signed overflow undefined. */
  ghost predicate NoOverflow(local: map<nat, int>, global: map<nat, int>, rids: seq<nat>)
    requires AllKnown(local, global, rids)
  {
    forall k | 0 <= k <= |rids| :: InInt32(Sum(local, global, rids[..k]))
  }

  /** The local indices among the inputs. */
  ghost function Freed(rids: seq<nat>): set<nat> {
    set i | 0 <= i < |rids| && IsLocal(rids[i]) :: RidIndex(rids[i])
  }

  /** No local RID occurs twice. */
  ghost predicate LocalsDistinct(rids: seq<nat>) {
    forall i, j | 0 <= i < j < |rids| && IsLocal(rids[i]) && IsLocal(rids[j]) :: RidIndex(rids[i]) != RidIndex(rids[j])
  }

  class Worker {
    const local: ReusableLocalKVStore<int>
    var global: map<nat, int>

    ghost predicate Valid()
      reads this, local
    {
      local.Valid()
    }

    constructor (local: ReusableLocalKVStore<int>, global: map<nat, int>)
      requires local.Valid()
      ensures this.local == local && this.global == global
    {
      this.local := local;
      this.global := global;
    }

    method GetInt(rid: nat) returns (v: int)
      requires Valid() && Known(local.Contents(), global, rid)
      ensures v == ValueOf(local.Contents(), global, rid)
    {
      if IsLocal(rid) {
        v := local.Get(RidIndex(rid));
      } else {
        v := global[rid];
      }
    }

    method FreeLocalInt(rid: nat)
      requires Valid()
      modifies local
      ensures Valid()
      ensures local.Contents() == old(local.Contents()) - (if IsLocal(rid) then {RidIndex(rid)} else {})
      ensures |local.store| == old(|local.store|)
    {
      if IsLocal(rid) {
        local.Erase(RidIndex(rid));
      }
    }

    method FreeAll(rids: seq<nat>)
      requires Valid()
      modifies local
      ensures Valid() && local.Contents() == old(local.Contents()) - Freed(rids)
      ensures |local.store| == old(|local.store|)
    {
      var i := 0;
      assert Freed(rids[..0]) == {};
      while i < |rids|
        invariant 0 <= i <= |rids| && Valid()
        invariant local.Contents() == old(local.Contents()) - Freed(rids[..i])
        invariant |local.store| == old(|local.store|)
      {
        FreedNext(rids, i);
        FreeLocalInt(rids[i]);
        i := i + 1;
      }
      assert rids[..i] == rids;
    }

    /** The summing loop. */
    method Total(rids: seq<nat>) returns (sum: int)
      requires Valid() && AllKnown(local.Contents(), global, rids) && NoOverflow(local.Contents(), global, rids)
      ensures sum == Sum(local.Contents(), global, rids)
    {
      sum := 0;
      var i := 0;
      while i < |rids|
        invariant 0 <= i <= |rids|
        invariant sum == Sum(local.Contents(), global, rids[..i])
      {
        var v := GetInt(rids[i]);
        assert rids[..i + 1][..i] == rids[..i];
        assert InInt32(Sum(local.Contents(), global, rids[..i + 1]));
        sum := sum + v;
        i := i + 1;
      }
      assert rids[..i] == rids;
    }

    /** kv_int_sum_bulk of the trusted server. */
    method SumBulk(rids: seq<nat>) returns (rid: nat)
      requires Valid() && AllKnown(local.Contents(), global, rids) && NoOverflow(local.Contents(), global, rids)
      requires |local.store| < TWO_48 - 1
      modifies local
      ensures Valid() && rid < TWO_64 && IsLocal(rid) && RidIndex(rid) !in old(local.Contents())
      ensures local.Contents() ==
        (old(local.Contents()) - Freed(rids))[RidIndex(rid) := old(Sum(local.Contents(), global, rids))]
      ensures |local.store| <= old(|local.store|) + 1
    {
      var sum := Total(rids);
      ghost var before := local.Contents();
      var idx := local.Put(sum);
      assert idx < TWO_48;
      RidRoundTrip(RID_LOCAL_PARTITION, idx, 0);
      rid := IdxToLocal(idx);
      assert idx !in Freed(rids) by { FreedAreKnown(before, global, rids); }
      FreeAll(rids);
      assert local.Contents() == (before - Freed(rids))[idx := sum];
    }
  }

  // ------------------------------------------------------------------------------------------
  // The chunking loop
  // ------------------------------------------------------------------------------------------

  /** The first `j` elements of `v` have been folded into the partial sum in `carry` and freed; the
      rest of the store is as it was. `start` is the live store before the first chunk. */
  ghost predicate Folded(
    start: map<nat, int>, global: map<nat, int>, v: seq<nat>, j: nat, carry: seq<nat>, local: map<nat, int>)
    requires AllKnown(start, global, v) && j <= |v|
  {
    if carry == [] then j == 0 && local == start
    else
      var x := RidIndex(carry[0]);
      && |carry| == 1 && IsLocal(carry[0])
      && x !in start - Freed(v[..j])
      && local == (start - Freed(v[..j]))[x := Sum(start, global, v[..j])]
  }

  /** An element not yet folded still denotes its original value. */
  lemma RestUntouched(
    start: map<nat, int>, global: map<nat, int>, v: seq<nat>, j: nat, carry: seq<nat>, local: map<nat, int>, k: nat)
    requires AllKnown(start, global, v) && LocalsDistinct(v) && j <= k < |v|
    requires Folded(start, global, v, j, carry, local)
    ensures Known(local, global, v[k]) && ValueOf(local, global, v[k]) == ValueOf(start, global, v[k])
  {
    if IsLocal(v[k]) {
      forall i | 0 <= i < j && IsLocal(v[..j][i]) ensures RidIndex(v[..j][i]) != RidIndex(v[k]) {
        assert v[..j][i] == v[i];
      }
    }
  }

  /** The chunk `carry + v[j..i]` sums to the prefix `v[..i]` of the array. */
  lemma {:induction false} ChunkSum(
    start: map<nat, int>, global: map<nat, int>, v: seq<nat>, j: nat, carry: seq<nat>, local: map<nat, int>, i: nat)
    requires AllKnown(start, global, v) && LocalsDistinct(v) && j <= i <= |v|
    requires Folded(start, global, v, j, carry, local)
    ensures AllKnown(local, global, carry + v[j..i])
    ensures Sum(local, global, carry + v[j..i]) == Sum(start, global, v[..i])
  {
    if i == j {
      CarrySum(start, global, v, j, carry, local);
      assert carry + v[j..i] == carry;
    } else {
      ChunkSum(start, global, v, j, carry, local, i - 1);
      RestUntouched(start, global, v, j, carry, local, i - 1);
      assert carry + v[j..i] == (carry + v[j..i - 1]) + [v[i - 1]] && v[..i] == v[..i - 1] + [v[i - 1]];
      SumSnoc(local, global, carry + v[j..i - 1], v[i - 1]);
      SumSnoc(start, global, v[..i - 1], v[i - 1]);
    }
  }

  lemma SumSnoc(local: map<nat, int>, global: map<nat, int>, rids: seq<nat>, rid: nat)
    requires AllKnown(local, global, rids) && Known(local, global, rid)
    ensures AllKnown(local, global, rids + [rid])
    ensures Sum(local, global, rids + [rid]) == Sum(local, global, rids) + ValueOf(local, global, rid)
  {
    assert (rids + [rid])[..|rids|] == rids;
  }

  lemma CarrySum(
    start: map<nat, int>, global: map<nat, int>, v: seq<nat>, j: nat, carry: seq<nat>, local: map<nat, int>)
    requires AllKnown(start, global, v) && j <= |v| && Folded(start, global, v, j, carry, local)
    ensures AllKnown(local, global, carry) && Sum(local, global, carry) == Sum(start, global, v[..j])
  {
    if carry != [] {
      SumSnoc(local, global, [], carry[0]);
      assert [] + [carry[0]] == carry;
    }
  }

  lemma ChunkDoesNotOverflow(
    start: map<nat, int>, global: map<nat, int>, v: seq<nat>, j: nat, carry: seq<nat>, local: map<nat, int>, i: nat)
    requires AllKnown(start, global, v) && LocalsDistinct(v) && j <= i <= |v|
    requires Folded(start, global, v, j, carry, local) && NoOverflow(start, global, v)
    ensures AllKnown(local, global, carry + v[j..i]) && NoOverflow(local, global, carry + v[j..i])
  {
    var chunk := carry + v[j..i];
    ChunkSum(start, global, v, j, carry, local, i);
    forall k | 0 <= k <= |chunk| ensures InInt32(Sum(local, global, chunk[..k])) {
      if k >= |carry| {
        var m := j + k - |carry|;
        assert chunk[..k] == carry + v[j..m];
        ChunkSum(start, global, v, j, carry, local, m);
        assert InInt32(Sum(start, global, v[..m]));
      } else {
        assert chunk[..k] == [];
      }
    }
  }

  lemma FreedConcat(a: seq<nat>, b: seq<nat>)
    ensures Freed(a + b) == Freed(a) + Freed(b)
  {
    var c := a + b;
    forall x | x in Freed(a) + Freed(b) ensures x in Freed(c) {
      if x in Freed(a) {
        var k :| 0 <= k < |a| && IsLocal(a[k]) && RidIndex(a[k]) == x;
        assert c[k] == a[k];
      } else {
        var k :| 0 <= k < |b| && IsLocal(b[k]) && RidIndex(b[k]) == x;
        assert c[|a| + k] == b[k];
      }
    }
  }

  lemma FreedOfChunk(v: seq<nat>, j: nat, carry: seq<nat>, i: nat)
    requires j <= i <= |v| && |carry| <= 1 && (carry != [] ==> IsLocal(carry[0]))
    ensures Freed(carry + v[j..i]) == (if carry == [] then {} else {RidIndex(carry[0])}) + Freed(v[j..i])
    ensures Freed(v[..i]) == Freed(v[..j]) + Freed(v[j..i])
  {
    FreedConcat(carry, v[j..i]);
    FreedConcat(v[..j], v[j..i]);
    assert v[..i] == v[..j] + v[j..i];
  }

  /** Summing a chunk folds it: the new partial sum replaces the chunk. */
  lemma ChunkFolds(
    start: map<nat, int>, global: map<nat, int>, v: seq<nat>, j: nat, carry: seq<nat>, local: map<nat, int>, i: nat,
    rid: nat, local': map<nat, int>)
    requires AllKnown(start, global, v) && LocalsDistinct(v) && j <= i <= |v|
    requires Folded(start, global, v, j, carry, local)
    requires AllKnown(local, global, carry + v[j..i])
    requires IsLocal(rid) && RidIndex(rid) !in local
    requires local' == (local - Freed(carry + v[j..i]))[RidIndex(rid) := Sum(local, global, carry + v[j..i])]
    ensures Folded(start, global, v, i, [rid], local')
  {
    ChunkSum(start, global, v, j, carry, local, i);
    FreedOfChunk(v, j, carry, i);
    if carry == [] { assert v[..j] == []; }
    assert local - Freed(carry + v[j..i]) == start - Freed(v[..i]);
  }

  lemma ChunkGrows(carry: seq<nat>, v: seq<nat>, j: nat, i: nat)
    requires j <= i < |v|
    ensures carry + v[j..i] + [v[i]] == carry + v[j..i + 1]
    ensures j == i ==> carry + v[j..i] == carry
  {
  }

  /** One request for the sum of a chunk. */
  method SumChunk(w: Worker, bulk: seq<nat>, ghost start: map<nat, int>, ghost v: seq<nat>, ghost j: nat,
                  ghost carry: seq<nat>, ghost i: nat)
    returns (rid: nat)
    requires w.Valid() && |w.local.store| < TWO_48 - 2 && 1 <= |bulk| <= 256
    requires AllKnown(start, w.global, v) && LocalsDistinct(v) && NoOverflow(start, w.global, v) && j <= i <= |v|
    requires bulk == carry + v[j..i] && Folded(start, w.global, v, j, carry, w.local.Contents())
    modifies w.local
    ensures w.Valid() && |w.local.store| <= old(|w.local.store|) + 1
    ensures IsLocal(rid) && Folded(start, w.global, v, i, [rid], w.local.Contents())
  {
    ghost var before := w.local.Contents();
    ChunkDoesNotOverflow(start, w.global, v, j, carry, before, i);
    rid := w.SumBulk(bulk);
    ChunkFolds(start, w.global, v, j, carry, before, i, rid, w.local.Contents());
  }

  /** kv_int4_sum_bulk of the extension: for a non-empty array of live RIDs in which no local one
      occurs twice, the result is a fresh local RID that denotes the total; every local input and
      every partial sum is freed, and nothing else changes. */
  method SumArray(w: Worker, v: seq<nat>) returns (rid: nat)
    requires |v| > 0 && w.Valid() && LocalsDistinct(v)
    requires AllKnown(w.local.Contents(), w.global, v) && NoOverflow(w.local.Contents(), w.global, v)
    requires |w.local.store| + |v| < TWO_48 - 2
    modifies w.local
    ensures w.Valid() && IsLocal(rid) && RidIndex(rid) !in old(w.local.Contents()) - Freed(v)
    ensures w.local.Contents() ==
      (old(w.local.Contents()) - Freed(v))[RidIndex(rid) := old(Sum(w.local.Contents(), w.global, v))]
  {
    ghost var start := w.local.Contents();
    ghost var size := |w.local.store|;
    ghost var j, carry := 0, [];
    var bulk := [v[0]];
    var i := 1;
    while i < |v|
      invariant 1 <= i <= |v| && 0 <= j <= i && 1 <= |bulk| <= BULK_SIZE
      invariant w.Valid() && |w.local.store| <= size + i
      invariant bulk == carry + v[j..i]
      invariant Folded(start, w.global, v, j, carry, w.local.Contents())
    {
      if |bulk| == BULK_SIZE {
        var tmp := SumChunk(w, bulk, start, v, j, carry, i);
        bulk := [tmp];
        j, carry := i, [tmp];
      }
      ChunkGrows(carry, v, j, i);
      bulk := bulk + [v[i]];
      i := i + 1;
    }
    rid := SumChunk(w, bulk, start, v, j, carry, i);
    assert v[..i] == v;
  }

  lemma FreedNext(rids: seq<nat>, i: nat)
    requires i < |rids|
    ensures Freed(rids[..i + 1]) == Freed(rids[..i]) + if IsLocal(rids[i]) then {RidIndex(rids[i])} else {}
  {
    var a, b := rids[..i], rids[..i + 1];
    assert forall k | 0 <= k < i :: a[k] == b[k];
    assert b[i] == rids[i];
  }

  lemma FreedAreKnown(local: map<nat, int>, global: map<nat, int>, rids: seq<nat>)
    requires AllKnown(local, global, rids)
    ensures Freed(rids) <= local.Keys
  {
  }
}
