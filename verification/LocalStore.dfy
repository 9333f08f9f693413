/** The per-worker store of temporary values with a free list.

    Source: src/privacy_zone/include/kv-local.hpp, class ReusableLocalKVStore. */
module LocalStore {
  import opened Options

  /** The three vectors of the class, as a value. */
  datatype View<V> = View(store: seq<V>, live: seq<bool>, free: seq<nat>) {

    /** The free list holds every dead index exactly once and nothing else. */
    ghost predicate Valid() {
      && |store| == |live|
      && (forall k | 0 <= k < |live| :: !live[k] <==> k in free)
      && (forall i | 0 <= i < |free| :: free[i] < |live|)
      && (forall i, j | 0 <= i < j < |free| :: free[i] != free[j])
    }

    /** The live entries: what the store means to its users. */
    function Contents(): (m: map<nat, V>)
      requires |store| == |live|
    {
      map k: nat | k < |live| && live[k] :: store[k]
    }

    function Key(): (k: nat) {
      if free != [] then free[|free| - 1] else |store|
    }

    function Put(value: V): View<V>
      requires Valid()
    {
      if free != [] then
        var k := free[|free| - 1];
        View(store[k := value], live[k := true], free[..|free| - 1])
      else View(store + [value], live + [true], free)
    }

    function Erase(key: nat, zero: V): View<V>
      requires Valid()
    {
      if key >= |live| || !live[key] then this
      else View(store[key := zero], live[key := false], free + [key])
    }
  }

  /** `put` hands out an index that is not live and changes no other entry. */
  lemma PutAddsOneEntry<V>(s: View<V>, value: V)
    requires s.Valid()
    ensures s.Put(value).Valid()
    ensures s.Key() !in s.Contents()
    ensures s.Put(value).Contents() == s.Contents()[s.Key() := value]
  {
    var s' := s.Put(value);
    if s.free != [] {
      var k := s.Key();
      assert k in s.free;
      forall i | 0 <= i < |s'.live| ensures !s'.live[i] <==> i in s'.free {
        if i != k && i in s.free { assert i in s'.free; }
      }
    }
  }

  lemma EraseRemovesOneEntry<V>(s: View<V>, key: nat, zero: V)
    requires s.Valid()
    ensures s.Erase(key, zero).Valid()
    ensures s.Erase(key, zero).Contents() == s.Contents() - {key}
  {
    var s' := s.Erase(key, zero);
    if key < |s.live| && s.live[key] {
      assert key !in s.free;
      forall i | 0 <= i < |s'.live| ensures !s'.live[i] <==> i in s'.free {
      }
    }
  }

  /** The index freed last is the first to be used again. */
  lemma LastErasedIsReused<V>(s: View<V>, key: nat, zero: V)
    requires s.Valid() && key in s.Contents()
    ensures s.Erase(key, zero).Key() == key
  {
  }

  /** The store grows exactly when no index below its size is dead. */
  lemma GrowsIffAllLive<V>(s: View<V>, value: V)
    requires s.Valid()
    ensures |s.Put(value).store| == |s.store| + 1 <==> forall k | 0 <= k < |s.store| :: k in s.Contents()
    ensures |s.Put(value).store| == |s.store| || s.Key() == |s.store|
  {
    if s.free != [] {
      var k := s.free[0];
      assert k in s.free && k < |s.store| && k !in s.Contents();
    }
  }

  class ReusableLocalKVStore<V> {
    var store: seq<V>
    var live: seq<bool>
    var freeList: seq<nat>
    const zero: V

    function AsView(): (v: View<V>)
      reads this
    {
      View(store, live, freeList)
    }

    ghost predicate Valid()
      reads this
    {
      AsView().Valid()
    }

    function Contents(): (m: map<nat, V>)
      requires Valid()
      reads this
    {
      AsView().Contents()
    }

    constructor (zero: V)
      ensures Valid() && Contents() == map[] && this.zero == zero
    {
      store, live, freeList := [], [], [];
      this.zero := zero;
    }

    method Put(value: V) returns (key: nat)
      requires Valid()
      modifies this
      ensures Valid() && AsView() == old(AsView()).Put(value)
      ensures key == old(AsView()).Key()
      ensures key !in old(Contents()) && Contents() == old(Contents())[key := value]
    {
      PutAddsOneEntry(AsView(), value);
      if freeList != [] {
        key := freeList[|freeList| - 1];
        freeList := freeList[..|freeList| - 1];
        store := store[key := value];
        live := live[key := true];
        return;
      }
      key := |store|;
      store := store + [value];
      live := live + [true];
    }

    /** The source reads `store[key]` unchecked, so the index must exist; a dead one reads zero. */
    method Get(key: nat) returns (value: V)
      requires Valid() && key < |store|
      ensures value == store[key]
      ensures key in Contents() ==> value == Contents()[key]
    {
      value := store[key];
    }

    method Erase(key: nat)
      requires Valid()
      modifies this
      ensures Valid() && AsView() == old(AsView()).Erase(key, zero)
      ensures Contents() == old(Contents()) - {key}
      ensures |store| == old(|store|)
    {
      EraseRemovesOneEntry(AsView(), key, zero);
      if key >= |live| || !live[key] {
        return;
      }
      live := live[key := false];
      store := store[key := zero];
      freeList := freeList + [key];
    }

    method Clear()
      modifies this
      ensures Valid() && Contents() == map[]
      ensures AsView() == View([], [], [])
    {
      store, live, freeList := [], [], [];
    }
  }

  // ------------------------------------------------------------------------------------------
  // Every run of put, erase and clear
  // ------------------------------------------------------------------------------------------

  datatype Op<V> = PutOp(value: V) | EraseOp(key: nat) | ClearOp

  /** What an outside observer sees of one operation: a put shows the key it returned. */
  datatype Seen<V> = DidPut(key: nat, value: V) | DidErase(key: nat) | DidClear

  function Exec<V>(ops: seq<Op<V>>, zero: V): (r: (View<V>, seq<Seen<V>>))
    ensures r.0.Valid() && |r.1| == |ops|
  {
    if ops == [] then (View([], [], []), [])
    else
      var (s, seen) := Exec(ops[..|ops| - 1], zero);
      match ops[|ops| - 1]
      case PutOp(v) => PutAddsOneEntry(s, v); (s.Put(v), seen + [DidPut(s.Key(), v)])
      case EraseOp(k) => EraseRemovesOneEntry(s, k, zero); (s.Erase(k, zero), seen + [DidErase(k)])
      case ClearOp => (View([], [], []), seen + [DidClear])
  }

  /** What key `k` should read after the observed history: the last put of `k` that no later
      erase of `k` or clear undid. */
  function LastPut<V>(seen: seq<Seen<V>>, k: nat): Option<V> {
    if seen == [] then None
    else
      match seen[|seen| - 1]
      case DidPut(key, v) => if key == k then Some(v) else LastPut(seen[..|seen| - 1], k)
      case DidErase(key) => if key == k then None else LastPut(seen[..|seen| - 1], k)
      case DidClear => None
  }

  function Lookup<V>(m: map<nat, V>, k: nat): Option<V> {
    if k in m then Some(m[k]) else None
  }

  /** After every run each key reads its last put value, and no key is live that should not be. */
  lemma {:induction false} LiveKeysReadTheirLastPut<V>(ops: seq<Op<V>>, zero: V, k: nat)
    ensures var (s, seen) := Exec(ops, zero); Lookup(s.Contents(), k) == LastPut(seen, k)
  {
    if ops != [] {
      var before := ops[..|ops| - 1];
      LiveKeysReadTheirLastPut(before, zero, k);
      var (s, seen) := Exec(before, zero);
      var (s', seen') := Exec(ops, zero);
      assert seen'[..|seen|] == seen;
      match ops[|ops| - 1]
      case PutOp(v) => PutAddsOneEntry(s, v);
      case EraseOp(key) => EraseRemovesOneEntry(s, key, zero);
      case ClearOp =>
    }
  }

  /** After every run a dead slot reads zero. */
  lemma {:induction false} DeadSlotsReadZero<V>(ops: seq<Op<V>>, zero: V, k: nat)
    ensures var s := Exec(ops, zero).0; k < |s.store| && k !in s.Contents() ==> s.store[k] == zero
  {
    if ops != [] {
      var s := Exec(ops[..|ops| - 1], zero).0;
      DeadSlotsReadZero(ops[..|ops| - 1], zero, k);
      match ops[|ops| - 1]
      case PutOp(v) => PutAddsOneEntry(s, v);
      case EraseOp(key) => EraseRemovesOneEntry(s, key, zero);
      case ClearOp =>
    }
  }

  /** In no run does put return a key that is still live. */
  lemma PutNeverReturnsALiveKey<V>(ops: seq<Op<V>>, zero: V, value: V)
    ensures var (s, seen) := Exec(ops, zero);
      && Exec(ops + [PutOp(value)], zero).1 == seen + [DidPut(s.Key(), value)]
      && LastPut(seen, s.Key()) == None
  {
    var (s, seen) := Exec(ops, zero);
    assert (ops + [PutOp(value)])[..|ops|] == ops;
    PutAddsOneEntry(s, value);
    LiveKeysReadTheirLastPut(ops, zero, s.Key());
  }

  // ------------------------------------------------------------------------------------------
  // Reading a history
  // ------------------------------------------------------------------------------------------

  predicate PutsAt<V>(e: Seen<V>, k: nat) { e.DidPut? && e.key == k }

  predicate Undoes<V>(e: Seen<V>, k: nat) { e.DidClear? || (e.DidErase? && e.key == k) }

  /** Key `k` was handed out again. */
  ghost predicate Reissued<V(!new)>(seen: seq<Seen<V>>, k: nat) {
    exists i | 0 <= i < |seen| :: PutsAt(seen[i], k)
  }

  /** Key `k` was erased, or everything was. */
  ghost predicate Undone<V(!new)>(seen: seq<Seen<V>>, k: nat) {
    exists i | 0 <= i < |seen| :: Undoes(seen[i], k)
  }

  /** No put returned a key that was live. */
  ghost predicate FreshPuts<V(!new)>(seen: seq<Seen<V>>) {
    forall i | 0 <= i < |seen| && seen[i].DidPut? :: LastPut(seen[..i], seen[i].key) == None
  }

  lemma LastPutSnoc<V>(seen: seq<Seen<V>>, e: Seen<V>, k: nat)
    ensures LastPut(seen + [e], k) ==
      if Undoes(e, k) then None else if PutsAt(e, k) then Some(e.value) else LastPut(seen, k)
  {
    assert (seen + [e])[..|seen|] == seen;
  }

  lemma FreshSnoc<V(!new)>(seen: seq<Seen<V>>, e: Seen<V>)
    ensures FreshPuts(seen + [e]) <==> FreshPuts(seen) && (e.DidPut? ==> LastPut(seen, e.key) == None)
  {
    var all := seen + [e];
    assert forall i | 0 <= i <= |seen| :: all[..i] == seen[..i];
    assert all[..|seen|] == seen && all[|seen|] == e;
    if FreshPuts(all) {
      forall i | 0 <= i < |seen| && seen[i].DidPut? ensures LastPut(seen[..i], seen[i].key) == None {
        assert all[i] == seen[i];
      }
    }
  }

  /** After a put of `v` at `k`, and no further put there, `k` reads `v` until it is erased or the
      store cleared, and nothing from then on. */
  lemma {:induction false} SinceAPut<V(!new)>(before: seq<Seen<V>>, k: nat, v: V, since: seq<Seen<V>>)
    requires !Reissued(since, k)
    ensures LastPut(before + [DidPut(k, v)] + since, k) == if Undone(since, k) then None else Some(v)
  {
    var put := before + [DidPut(k, v)];
    if since == [] {
      LastPutSnoc(before, DidPut(k, v), k);
      assert put + since == put;
    } else {
      var n := |since| - 1;
      assert forall i | 0 <= i < n :: since[..n][i] == since[i];
      assert put + since == (put + since[..n]) + [since[n]];
      SinceAPut(before, k, v, since[..n]);
      LastPutSnoc(put + since[..n], since[n], k);
      if Undone(since, k) && !Undoes(since[n], k) {
        var i :| 0 <= i < |since| && Undoes(since[i], k);
        assert Undoes(since[..n][i], k);
      }
    }
  }

  /** A live key is not handed out again. */
  lemma {:induction false} LiveKeyIsNotReissued<V(!new)>(before: seq<Seen<V>>, k: nat, v: V, since: seq<Seen<V>>)
    requires FreshPuts(before + [DidPut(k, v)] + since) && !Undone(since, k)
    ensures !Reissued(since, k)
  {
    if since != [] {
      var n, put := |since| - 1, before + [DidPut(k, v)];
      assert put + since == (put + since[..n]) + [since[n]];
      FreshSnoc(put + since[..n], since[n]);
      assert forall i | 0 <= i < n :: since[..n][i] == since[i];
      LiveKeyIsNotReissued(before, k, v, since[..n]);
      SinceAPut(before, k, v, since[..n]);
      assert !PutsAt(since[n], k);
    }
  }
}
