/** The row trigger that moves every protected column of a new tuple into the partition of its
    relation.

    Sources: src/integrity_zone/extension.cpp (generic_delete_trigger, send_promote_req),
    src/privacy_zone/handler.cpp (the promote commands), src/include/rid.h. */
module Promotion {
  import opened Arith
  import opened LittleEndian
  import opened Options
  import opened Rid
  import opened WalBatches
  import opened WalCodec

  function Slot(kind: int, partition: nat): (int, nat) { (kind, partition) }

  predicate InPartition(rid: nat, partition: nat) {
    !IsLocal(rid) && RidPartition(rid) == partition
  }

  /** None when the relation would share its partition with the local RIDs: an error is raised. */
  function RelationPartition(relid: nat): (p: Option<nat>)
    ensures p.None? <==> relid % 0x1_0000 == 0xffff
    ensures p.Some? ==> p.value < RID_LOCAL_PARTITION && p.value == relid % 0x1_0000
  {
    var p := relid % PARTITIONS;
    if p == RID_LOCAL_PARTITION then None else Some(p)
  }

  /** What a RID of a given type denotes. */
  function Denotes(local: map<Item, Bytes>, global: Store, kind: int, rid: nat): Option<Bytes> {
    if IsLocal(rid) then
      (if Item(kind, RidIndex(rid)) in local then Some(local[Item(kind, RidIndex(rid))]) else None)
    else if Item(kind, rid) in global then Some(global[Item(kind, rid)]) else None
  }

  /** The stores behind one worker: `local` maps (type, index) to a live temporary value, `next` is
      the index counter of each persistent partition. */
  class Stores {
    var local: map<Item, Bytes>
    var global: Store
    var next: map<(int, nat), nat>

    /** Every persistent key is below the counter of its partition, so the next key is unused. */
    ghost predicate Valid()
      reads this
    {
      forall item | item in global ::
        item.rid < TWO_64 && RidIndex(item.rid) < Next(item.kind, RidPartition(item.rid))
    }

    function Next(kind: int, partition: nat): nat
      reads this
    {
      if Slot(kind, partition) in next then next[Slot(kind, partition)] else 0
    }

    constructor ()
      ensures Valid() && local == map[] && global == map[]
    {
      local, global, next := map[], map[], map[];
    }

    /** CMD_PROMOTE_*: copy the value to a fresh key of the partition and free a local source. */
    method Promote(kind: int, rid: nat, partition: nat) returns (res: nat)
      requires Valid() && Denotes(local, global, kind, rid).Some? && partition < RID_LOCAL_PARTITION
      requires Next(kind, partition) < MaxIndex(kind)
      modifies this
      ensures Valid() && InPartition(res, partition) && Item(kind, res) !in old(global)
      ensures global == old(global)[Item(kind, res) := old(Denotes(local, global, kind, rid)).value]
      ensures local == if IsLocal(rid) then old(local) - {Item(kind, RidIndex(rid))} else old(local)
      ensures Next(kind, partition) == old(Next(kind, partition)) + 1
      ensures forall k: int, p: nat | (k, p) != (kind, partition) :: Next(k, p) == old(Next(k, p))
    {
      var value := Denotes(local, global, kind, rid).value;
      var key := Next(kind, partition);
      RidRoundTrip(partition, key, 0);
      res := MakePartitionedRid(partition, key);
      global := global[Item(kind, res) := value];
      next := next[Slot(kind, partition) := key + 1];
      if IsLocal(rid) {
        local := local - {Item(kind, RidIndex(rid))};
      }
    }
  }

  /** A column the trigger must move: protected, not null, not yet in the partition. */
  predicate Moves(a: Attribute, partition: nat) {
    Logged(a) && !InPartition(a.rid, partition)
  }

  ghost predicate NothingToMove(attrs: seq<Attribute>, partition: nat) {
    forall i | 0 <= i < |attrs| :: !Moves(attrs[i], partition)
  }

  /** A dropped column has no type any more. */
  ghost predicate GoodTuple(attrs: seq<Attribute>) {
    forall i | 0 <= i < |attrs| :: -1 <= attrs[i].kind <= TIMESTAMP && (attrs[i].dropped ==> attrs[i].kind == -1)
  }

  /** No two columns of the same type hold the same local RID. */
  ghost predicate LocalsDistinct(attrs: seq<Attribute>) {
    forall i, j | 0 <= i < j < |attrs| && Logged(attrs[i]) && Logged(attrs[j]) && attrs[i].kind == attrs[j].kind
        && IsLocal(attrs[i].rid) && IsLocal(attrs[j].rid) :: RidIndex(attrs[i].rid) != RidIndex(attrs[j].rid)
  }

  /** The local slots the trigger frees. */
  ghost function Sources(attrs: seq<Attribute>): set<Item> {
    set i | 0 <= i < |attrs| && Logged(attrs[i]) && IsLocal(attrs[i].rid) :: Item(attrs[i].kind, RidIndex(attrs[i].rid))
  }

  lemma SourcesNext(attrs: seq<Attribute>, i: nat)
    requires i < |attrs|
    ensures Sources(attrs[..i + 1]) == Sources(attrs[..i]) +
      if Logged(attrs[i]) && IsLocal(attrs[i].rid) then {Item(attrs[i].kind, RidIndex(attrs[i].rid))} else {}
  {
    var a, b := attrs[..i], attrs[..i + 1];
    assert forall k | 0 <= k < i :: a[k] == b[k];
    assert b[i] == attrs[i];
  }

  lemma SourceStillThere(attrs: seq<Attribute>, i: nat, k: nat)
    requires i <= k < |attrs| && LocalsDistinct(attrs) && Logged(attrs[k]) && IsLocal(attrs[k].rid)
    ensures Item(attrs[k].kind, RidIndex(attrs[k].rid)) !in Sources(attrs[..i])
  {
    forall j | 0 <= j < i && Logged(attrs[..i][j]) && IsLocal(attrs[..i][j].rid)
      ensures Item(attrs[..i][j].kind, RidIndex(attrs[..i][j].rid)) != Item(attrs[k].kind, RidIndex(attrs[k].rid))
    {
      assert attrs[..i][j] == attrs[j];
    }
  }

  /** Column `b` is column `a` after the trigger: in the partition, with the value of the original
      RID, if it is protected and not null, and untouched otherwise. */
  ghost predicate Moved(a: Attribute, b: Attribute, partition: nat, value: Bytes, global: Store) {
    if Moves(a, partition)
    then b == a.(rid := b.rid) && InPartition(b.rid, partition) && Item(a.kind, b.rid) in global
         && global[Item(a.kind, b.rid)] == value
    else b == a
  }

  ghost predicate AllMoved(
    attrs: seq<Attribute>, out: seq<Attribute>, partition: nat, values: seq<Bytes>, global: Store)
  {
    && |out| == |attrs| == |values|
    && forall k | 0 <= k < |attrs| :: Moved(attrs[k], out[k], partition, values[k], global)
  }

  /** Every column that is not dropped, of a protected type and not null is a RID of the partition,
      which is not the local one, and denotes its value; nothing but RIDs has changed. */
  ghost predicate InPlace(
    attrs: seq<Attribute>, out: seq<Attribute>, partition: nat, values: seq<Bytes>, global: Store)
  {
    && |out| == |attrs| == |values| && partition < 0xffff
    && (forall i | 0 <= i < |out| :: out[i] == attrs[i].(rid := out[i].rid))
    && forall i | 0 <= i < |out| && !out[i].dropped && out[i].kind >= 0 && !out[i].isNull ::
         && out[i].rid / 0x1_0000_0000_0000 == partition && Item(out[i].kind, out[i].rid) in global
         && global[Item(out[i].kind, out[i].rid)] == values[i]
  }

  ghost predicate StoreGrows(before: Store, after: Store) {
    forall item | item in before :: item in after && after[item] == before[item]
  }

  /** One turn of the trigger loop. */
  method MoveColumn(st: Stores, a: Attribute, partition: nat, ghost value: Bytes) returns (b: Attribute)
    requires st.Valid() && partition < RID_LOCAL_PARTITION && -1 <= a.kind <= TIMESTAMP
    requires Logged(a) ==> Denotes(st.local, st.global, a.kind, a.rid) == Some(value)
    requires Logged(a) ==> st.Next(a.kind, partition) < MaxIndex(a.kind)
    modifies st
    ensures st.Valid() && StoreGrows(old(st.global), st.global)
    ensures Moved(a, b, partition, value, st.global)
    ensures st.local == old(st.local) -
      if Logged(a) && IsLocal(a.rid) then {Item(a.kind, RidIndex(a.rid))} else {}
    ensures forall kind: int :: st.Next(kind, partition) <= old(st.Next(kind, partition)) + 1
    ensures !Moves(a, partition) ==> (st.global, st.next) == old((st.global, st.next))
  {
    if !a.dropped && a.kind >= 0 && !a.isNull && !InPartition(a.rid, partition) {
      var rid := st.Promote(a.kind, a.rid, partition);
      b := a.(rid := rid);
    } else {
      b := a;
    }
  }

  /** `values[i]` is the value of column `i`, for the columns that are protected and not null. */
  ghost predicate HaveValues(
    local: map<Item, Bytes>, global: Store, attrs: seq<Attribute>, values: seq<Bytes>, from: nat)
  {
    |values| == |attrs| && forall k | from <= k < |attrs| && Logged(attrs[k]) ::
      Denotes(local, global, attrs[k].kind, attrs[k].rid) == Some(values[k])
  }

  /** The columns still to come keep their values while the earlier ones are moved. */
  lemma RestKeepsValues(
    local: map<Item, Bytes>, global: Store, global': Store, attrs: seq<Attribute>, values: seq<Bytes>, i: nat)
    requires i <= |attrs| && LocalsDistinct(attrs) && StoreGrows(global, global')
    requires HaveValues(local, global, attrs, values, 0)
    ensures HaveValues(local - Sources(attrs[..i]), global', attrs, values, i)
  {
    forall k | i <= k < |attrs| && Logged(attrs[k])
      ensures Denotes(local - Sources(attrs[..i]), global', attrs[k].kind, attrs[k].rid) == Some(values[k])
    {
      if IsLocal(attrs[k].rid) { SourceStillThere(attrs, i, k); }
    }
  }

  lemma MovedOneMore(
    attrs: seq<Attribute>, out: seq<Attribute>, partition: nat, values: seq<Bytes>, before: Store, after: Store,
    b: Attribute)
    requires |out| < |attrs| == |values| && StoreGrows(before, after)
    requires AllMoved(attrs[..|out|], out, partition, values[..|out|], before)
    requires Moved(attrs[|out|], b, partition, values[|out|], after)
    ensures AllMoved(attrs[..|out| + 1], out + [b], partition, values[..|out| + 1], after)
  {
    var i, out' := |out|, out + [b];
    forall k | 0 <= k < i + 1 ensures Moved(attrs[..i + 1][k], out'[k], partition, values[..i + 1][k], after) {
      if k < i {
        assert Moved(attrs[..i][k], out[k], partition, values[..i][k], before);
      }
    }
  }

  lemma MovedIsInPlace(
    attrs: seq<Attribute>, out: seq<Attribute>, partition: nat, values: seq<Bytes>,
    local: map<Item, Bytes>, global: Store, after: Store)
    requires AllMoved(attrs, out, partition, values, after) && HaveValues(local, global, attrs, values, 0)
    requires StoreGrows(global, after) && partition < RID_LOCAL_PARTITION
    ensures InPlace(attrs, out, partition, values, after)
  {
    forall i | 0 <= i < |out|
      ensures out[i] == attrs[i].(rid := out[i].rid)
      ensures !out[i].dropped && out[i].kind >= 0 && !out[i].isNull ==>
        InPartition(out[i].rid, partition) && Item(out[i].kind, out[i].rid) in after
        && after[Item(out[i].kind, out[i].rid)] == values[i]
    {
      assert Moved(attrs[i], out[i], partition, values[i], after);
      if Logged(attrs[i]) && !Moves(attrs[i], partition) {
        assert Denotes(local, global, attrs[i].kind, attrs[i].rid) == Some(values[i]);
      }
    }
  }

  /** The loop over the columns. */
  method MoveColumns(st: Stores, attrs: seq<Attribute>, partition: nat, ghost values: seq<Bytes>)
    returns (out: seq<Attribute>)
    requires st.Valid() && GoodTuple(attrs) && LocalsDistinct(attrs) && partition < RID_LOCAL_PARTITION
    requires HaveValues(st.local, st.global, attrs, values, 0)
    requires forall kind | INT <= kind <= TIMESTAMP :: st.Next(kind, partition) + |attrs| <= MaxIndex(kind)
    modifies st
    ensures st.Valid() && StoreGrows(old(st.global), st.global) && st.local == old(st.local) - Sources(attrs)
    ensures AllMoved(attrs, out, partition, values, st.global)
    ensures forall kind | INT <= kind <= TIMESTAMP ::
      st.Next(kind, partition) <= old(st.Next(kind, partition)) + |attrs|
    ensures NothingToMove(attrs, partition) ==> (st.global, st.next) == old((st.global, st.next))
  {
    out := [];
    var i := 0;
    ghost var local, global, next := st.local, st.global, st.next;
    while i < |attrs|
      invariant 0 <= i <= |attrs| && |out| == i && st.Valid()
      invariant AllMoved(attrs[..i], out, partition, values[..i], st.global)
      invariant st.local == local - Sources(attrs[..i])
      invariant StoreGrows(global, st.global)
      invariant NothingToMove(attrs, partition) ==> st.global == global && st.next == next
      invariant forall kind | INT <= kind <= TIMESTAMP :: st.Next(kind, partition) <= old(st.Next(kind, partition)) + i
    {
      SourcesNext(attrs, i);
      RestKeepsValues(local, global, st.global, attrs, values, i);
      ghost var before := st.global;
      var b := MoveColumn(st, attrs[i], partition, values[i]);
      MovedOneMore(attrs, out, partition, values, before, st.global, b);
      out := out + [b];
      i := i + 1;
    }
    assert attrs[..i] == attrs && values[..i] == values;
  }

  /** The insert and update branches of the trigger. */
  method RunTrigger(st: Stores, attrs: seq<Attribute>, relid: nat, ghost values: seq<Bytes>)
    returns (result: Option<seq<Attribute>>)
    requires st.Valid() && GoodTuple(attrs) && LocalsDistinct(attrs)
    requires HaveValues(st.local, st.global, attrs, values, 0)
    requires forall kind | INT <= kind <= TIMESTAMP ::
      st.Next(kind, relid % PARTITIONS) + |attrs| <= MaxIndex(kind)
    modifies st
    ensures st.Valid() && StoreGrows(old(st.global), st.global)
    ensures result.None? <==> relid % PARTITIONS == RID_LOCAL_PARTITION
    ensures result.None? ==> (st.local, st.global, st.next) == old((st.local, st.global, st.next))
    ensures result.Some? ==> st.local == old(st.local) - Sources(attrs)
    ensures result.Some? ==> AllMoved(attrs, result.value, relid % PARTITIONS, values, st.global)
    ensures result.Some? ==> InPlace(attrs, result.value, relid % PARTITIONS, values, st.global)
    ensures forall kind | INT <= kind <= TIMESTAMP ::
      st.Next(kind, relid % PARTITIONS) <= old(st.Next(kind, relid % PARTITIONS)) + |attrs|
    ensures NothingToMove(attrs, relid % PARTITIONS) ==> (st.global, st.next) == old((st.global, st.next))
  {
    var partition := RelationPartition(relid);
    if partition.None? {
      return None;
    }
    ghost var local, global := st.local, st.global;
    var out := MoveColumns(st, attrs, partition.value, values);
    MovedIsInPlace(attrs, out, partition.value, values, local, global, st.global);
    return Some(out);
  }

  /** A second run of the trigger on its own result finds nothing to do: it returns the same tuple
      and changes no store. */
  method RunTriggerTwice(st: Stores, attrs: seq<Attribute>, relid: nat, ghost values: seq<Bytes>)
    returns (once: Option<seq<Attribute>>, twice: Option<seq<Attribute>>,
             ghost between: (map<Item, Bytes>, Store, map<(int, nat), nat>))
    requires st.Valid() && GoodTuple(attrs) && LocalsDistinct(attrs)
    requires HaveValues(st.local, st.global, attrs, values, 0)
    requires forall kind | INT <= kind <= TIMESTAMP ::
      st.Next(kind, relid % PARTITIONS) + 2 * |attrs| <= MaxIndex(kind)
    modifies st
    ensures twice == once && between == (st.local, st.global, st.next)
    ensures once.Some? ==> NothingToMove(once.value, relid % PARTITIONS)
  {
    once := RunTrigger(st, attrs, relid, values);
    between := (st.local, st.global, st.next);
    twice := None;
    if once.None? {
      return;
    }
    var partition := relid % PARTITIONS;
    var out := once.value;
    forall i | 0 <= i < |out| && Logged(out[i])
      ensures InPartition(out[i].rid, partition) && Item(out[i].kind, out[i].rid) in st.global
    {
      assert Moved(attrs[i], out[i], partition, values[i], st.global);
    }
    assert Sources(out) == {} && st.local - {} == st.local;
    twice := RunTrigger(st, out, relid, values);
    assert twice.value == out;
  }
}
