/** Record identifiers: 16 partition bits above 48 index bits.

    Source: src/include/rid.h with USE_KVMAP_PARTITION, src/privacy_zone/include/kv.hpp. */
module Rid {
  import opened Arith

  const TWO_48: nat := 0x1_0000_0000_0000
  const PARTITIONS: nat := 0x1_0000
  const RID_LOCAL_PARTITION: nat := PARTITIONS - 1
  const INVALID_RID: nat := TWO_64 - 1

  function RidPartition(id: nat): nat { id / TWO_48 }

  function RidIndex(id: nat): nat { id % TWO_48 }

  /** (partition << 48) | (idx & mask), in 64 bits */
  function MakePartitionedRid(partition: nat, idx: nat): nat {
    (partition * TWO_48) % TWO_64 + idx % TWO_48
  }

  predicate IsLocal(id: nat) { RidPartition(id) == RID_LOCAL_PARTITION }

  function IdxToLocal(idx: nat): nat { MakePartitionedRid(RID_LOCAL_PARTITION, idx) }

  /** Packing and unpacking are inverse to each other, so distinct (partition, index) pairs have
      distinct RIDs; the all-ones RID is a local one. */
  lemma RidRoundTrip(partition: nat, idx: nat, id: nat)
    requires partition < PARTITIONS && idx < TWO_48 && id < TWO_64
    ensures var r := MakePartitionedRid(partition, idx);
      r < TWO_64 && RidPartition(r) == partition && RidIndex(r) == idx
      && (IsLocal(r) <==> partition == RID_LOCAL_PARTITION)
    ensures MakePartitionedRid(RidPartition(id), RidIndex(id)) == id
    ensures RidIndex(IdxToLocal(idx)) == idx && IsLocal(IdxToLocal(idx)) && IsLocal(INVALID_RID)
  {
  }
}
