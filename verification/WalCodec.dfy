/** The write-ahead-log payload: a batch of RIDs becomes one encrypted byte string that carries
    their values, and replay writes those values back.

    Sources: src/privacy_zone/include/wal.hpp (materializeBatch, replayPayload and their helpers),
    src/privacy_zone/handler.cpp (capacities), src/include/request_types.h (layout). */
module WalCodec {
  import opened Arith
  import Iv
  import opened LittleEndian
  import opened Options
  import opened Rid

  const WAL_PAYLOAD_MAGIC: nat := 0x31564c57
  const WAL_PAYLOAD_VERSION: nat := 1
  const WAL_MATERIALIZE_RID_BATCH_SIZE: nat := 3000
  const STRING_LENGTH: nat := 540
  const TAG_SIZE: nat := 16
  const REQ_REGION_SIZE: nat := 1024 * 1024
  /** The payload follows 24 bytes of fixed fields and 3000 items of 16 bytes. */
  const MATERIALIZE_CAPACITY: nat := REQ_REGION_SIZE - (24 + 16 * WAL_MATERIALIZE_RID_BATCH_SIZE)
  const REPLAY_CAPACITY: nat := REQ_REGION_SIZE - 24

  const INT: int := 0
  const FLOAT: int := 1
  const TEXT: int := 2
  const TIMESTAMP: int := 3

  /** WalRidItem: the type is a plain int and may be out of range. */
  datatype Item = Item(kind: int, rid: nat)

  /** The persistent store: the raw bytes of a number, the characters of a text. */
  type Store = map<Item, Bytes>

  const MMAP_BYTES: nat := 0x100_0000_0000 - 4096

  function MaxIndex(kind: int): nat {
    if kind == TEXT then 512 * 1024 * 1024
    else if kind == TIMESTAMP then MMAP_BYTES / 8
    else MMAP_BYTES / 4
  }

  predicate GoodKind(kind: int) { INT <= kind <= TIMESTAMP }

  /** The checks of init_partition and of the store on every access. */
  predicate InStore(item: Item) {
    GoodKind(item.kind) && item.rid < TWO_64 && !IsLocal(item.rid) && RidIndex(item.rid) < MaxIndex(item.kind)
  }

  /** The RIDs of the stores: four types, any partition but the local one, so many slots each. */
  lemma StoreSlots(item: Item)
    requires 0 <= item.rid < 0x1_0000_0000_0000_0000
    ensures InStore(item) <==>
      item.rid / 0x1_0000_0000_0000 != 0xffff && match item.kind
        case 0 => item.rid % 0x1_0000_0000_0000 < 274877905920
        case 1 => item.rid % 0x1_0000_0000_0000 < 274877905920
        case 2 => item.rid % 0x1_0000_0000_0000 < 536870912
        case 3 => item.rid % 0x1_0000_0000_0000 < 137438952960
        case _ => false
  {
  }

  predicate GoodValue(kind: int, v: Bytes) {
    if kind == TEXT then forall i | 0 <= i < |v| :: v[i] != 0
    else |v| == if kind == TIMESTAMP then 8 else 4
  }

  ghost predicate GoodStore(st: Store) {
    forall item | item in st :: InStore(item) && GoodValue(item.kind, st[item])
  }

  // ------------------------------------------------------------------------------------------
  // Materialize
  // ------------------------------------------------------------------------------------------

  /** The length field of a record: 4, 4 or 8 bytes, or the first 539 characters and a NUL. */
  function ValueLength(kind: int, v: Bytes): nat {
    match kind
    case 2 => (if |v| < 539 then |v| else 539) + 1
    case 3 => 8
    case _ => 4
  }

  /** What append_record_value copies: numbers whole, text up to and including the byte after the
      first 539 characters. */
  function Recorded(kind: int, v: Bytes): (b: Bytes)
    ensures GoodKind(kind) && GoodValue(kind, v) ==> |b| == ValueLength(kind, v) <= STRING_LENGTH
  {
    if kind != TEXT then v else if |v| < STRING_LENGTH then v + [0] else v[..STRING_LENGTH]
  }

  function Record(item: Item, v: Bytes): Bytes
    requires GoodKind(item.kind)
  {
    var b := Recorded(item.kind, v);
    [item.kind as byte] + ToLittleEndian(|b|, 2) + ToLittleEndian(item.rid, 8) + b
  }

  /** Only promoted RIDs, which have a value in the store. */
  ghost predicate Promoted(items: seq<Item>, st: Store) {
    forall i | 0 <= i < |items| :: items[i] in st
  }

  function Records(items: seq<Item>, st: Store): (b: Bytes)
    requires GoodStore(st) && Promoted(items, st)
  {
    if items == [] then [] else Record(items[0], st[items[0]]) + Records(items[1..], st)
  }

  function Header(n: nat): (b: Bytes)
    ensures |b| == 8
  {
    ToLittleEndian(WAL_PAYLOAD_MAGIC, 4) + ToLittleEndian(WAL_PAYLOAD_VERSION, 2) + ToLittleEndian(n, 2)
  }

  function Plaintext(items: seq<Item>, st: Store): Bytes
    requires GoodStore(st) && Promoted(items, st)
  {
    Header(|items|) + Records(items, st)
  }

  /** append_bytes for the type, then append_record_value. */
  method AppendRecord(before: Bytes, item: Item, v: Bytes) returns (out: Bytes)
    requires GoodKind(item.kind)
    ensures out == before + Record(item, v)
  {
    var b := Recorded(item.kind, v);
    out := before + [item.kind as byte];
    out := out + ToLittleEndian(|b|, 2);
    out := out + ToLittleEndian(item.rid, 8);
    out := out + b;
  }

  lemma RecordsStep(before: Bytes, items: seq<Item>, st: Store, i: nat)
    requires GoodStore(st) && Promoted(items, st) && i < |items|
    ensures before + Records(items[i..], st)
         == (before + Record(items[i], st[items[i]])) + Records(items[i + 1..], st)
  {
    assert items[i..][1..] == items[i + 1..];
    var record, rest := Record(items[i], st[items[i]]), Records(items[i + 1..], st);
    assert before + (record + rest) == before + record + rest;
  }

  /** materialize_payload: a byte vector grown record by record. */
  method MaterializePayload(items: seq<Item>, st: Store) returns (out: Bytes)
    requires GoodStore(st) && Promoted(items, st)
    ensures out == Plaintext(items, st)
  {
    out := Header(|items|);
    ghost var goal := Plaintext(items, st);
    assert items[0..] == items;
    var i := 0;
    while i < |items|
      invariant 0 <= i <= |items|
      invariant out + Records(items[i..], st) == goal
    {
      RecordsStep(out, items, st, i);
      out := AppendRecord(out, items[i], st[items[i]]);
      i := i + 1;
    }
    assert items[i..] == [] && out + [] == out;
  }

  /** The number of bytes the records of a batch take. */
  function RecordsLength(items: seq<Item>, st: Store): nat
    requires GoodStore(st) && Promoted(items, st)
  {
    if items == [] then 0
    else 11 + ValueLength(items[0].kind, st[items[0]]) + RecordsLength(items[1..], st)
  }

  lemma {:induction false} RecordsHaveLength(items: seq<Item>, st: Store)
    requires GoodStore(st) && Promoted(items, st)
    ensures |Records(items, st)| == RecordsLength(items, st)
  {
    if items != [] { RecordsHaveLength(items[1..], st); }
  }

  /** AES-GCM as an abstract pair: sealing adds 28 bytes and opening undoes it. */
  datatype Cipher = Cipher(seal: (nat, Bytes) -> Bytes, open: Bytes -> Option<Bytes>) {
    ghost predicate Sound() {
      && (forall iv: nat, p: Bytes :: open(seal(iv, p)) == Some(p))
      && (forall iv: nat, p: Bytes :: |seal(iv, p)| == |p| + Iv.IV_SIZE + TAG_SIZE)
    }
  }

  /** materializeBatch; None is a failed check, which ends the process. The caller's obligation is
      that every slot it names has been written. */
  function MaterializeBatch(c: Cipher, iv: nat, items: seq<Item>, st: Store, capacity: nat): (r: Option<Bytes>)
    requires c.Sound() && GoodStore(st) && forall i | 0 <= i < |items| && InStore(items[i]) :: items[i] in st
  {
    if items == [] then Some([])
    else if |items| > WAL_MATERIALIZE_RID_BATCH_SIZE then None
    else if exists i | 0 <= i < |items| :: !InStore(items[i]) then None
    else
      var plaintext := Plaintext(items, st);
      if |plaintext| + Iv.IV_SIZE + TAG_SIZE > capacity then None else Some(c.seal(iv, plaintext))
  }

  /** Exactly which batches are accepted, and how long their payload is; it always fits the buffer
      that replay will be given. */
  lemma AcceptedBatches(c: Cipher, iv: nat, items: seq<Item>, st: Store)
    requires c.Sound() && GoodStore(st) && forall i | 0 <= i < |items| && InStore(items[i]) :: items[i] in st
    ensures var r := MaterializeBatch(c, iv, items, st, MATERIALIZE_CAPACITY);
      && (r.Some? <==>
          (items == [] || (|items| <= 3000 && Promoted(items, st) && 36 + RecordsLength(items, st) <= 1000552)))
      && (r.Some? && items != [] ==> |r.value| == 36 + RecordsLength(items, st))
      && (r.Some? ==> |r.value| <= REPLAY_CAPACITY)
  {
    if Promoted(items, st) { RecordsHaveLength(items, st); }
  }

  lemma {:induction false} LongTextsLength(items: seq<Item>, st: Store)
    requires GoodStore(st) && Promoted(items, st)
    requires forall i | 0 <= i < |items| :: items[i].kind == TEXT && |st[items[i]]| >= 539
    ensures RecordsLength(items, st) == 551 * |items|
  {
    if items != [] { LongTextsLength(items[1..], st); }
  }

  /** A batch of texts of 539 or more characters is refused from 1816 items on; so a full batch of
      3000 of them is. */
  lemma LongTextsRefusedIff(c: Cipher, iv: nat, items: seq<Item>, st: Store)
    requires c.Sound() && GoodStore(st) && Promoted(items, st)
    requires forall i | 0 <= i < |items| :: items[i].kind == TEXT && |st[items[i]]| >= 539
    ensures MaterializeBatch(c, iv, items, st, MATERIALIZE_CAPACITY).None? <==> |items| >= 1816
  {
    AcceptedBatches(c, iv, items, st);
    LongTextsLength(items, st);
  }

  // ------------------------------------------------------------------------------------------
  // Replay
  // ------------------------------------------------------------------------------------------

  /** The characters before the first NUL. */
  function UpToNul(b: Bytes): (s: Bytes)
    ensures forall i | 0 <= i < |s| :: s[i] != 0
  {
    if b == [] || b[0] == 0 then [] else [b[0]] + UpToNul(b[1..])
  }

  /** The value replay stores for a record of `b`: text goes through a zeroed buffer of 540 bytes
      whose last byte is set to NUL. */
  function Restored(kind: int, b: Bytes): Bytes {
    if kind == TEXT then UpToNul(if |b| < STRING_LENGTH then b else b[..STRING_LENGTH - 1]) else b
  }

  predicate GoodLength(kind: int, n: nat) {
    match kind
    case 0 => n == 4
    case 1 => n == 4
    case 2 => 0 < n <= STRING_LENGTH
    case 3 => n == 8
    case _ => false
  }

  /** The record loop: `n` records, then nothing. The flag is false when a check failed; what was
      written before the failure stays written. */
  function ReplayRecords(data: Bytes, n: nat, st: Store): (r: (Store, bool)) {
    if n == 0 then (st, data == [])
    else if |data| < 11 then (st, false)
    else
      var len := FromLittleEndian(data[1..3]);
      var item := Item(data[0] as int, FromLittleEndian(data[3..11]));
      if 11 + len > |data| || !GoodLength(item.kind, len) || !InStore(item) then (st, false)
      else
        ReplayRecords(data[11 + len..], n - 1, st[item := Restored(item.kind, data[11..11 + len])])
  }

  predicate GoodHeader(data: Bytes) {
    && |data| >= 8
    && FromLittleEndian(data[..4]) == WAL_PAYLOAD_MAGIC
    && FromLittleEndian(data[4..6]) == WAL_PAYLOAD_VERSION
  }

  function ReplayPlaintext(data: Bytes, st: Store): (r: (Store, bool)) {
    if GoodHeader(data) then ReplayRecords(data[8..], FromLittleEndian(data[6..8]), st) else (st, false)
  }

  function ReplayPayload(c: Cipher, payload: Bytes, st: Store): (r: (Store, bool)) {
    if payload == [] then (st, true)
    else if |payload| < Iv.IV_SIZE + TAG_SIZE || c.open(payload).None? then (st, false)
    else ReplayPlaintext(c.open(payload).value, st)
  }

  /** One turn of the record loop at a cursor into the payload. */
  lemma ReplayStep(data: Bytes, ptr: nat, n: nat, st: Store)
    requires n > 0 && ptr + 11 <= |data|
    ensures var len := FromLittleEndian(data[ptr + 1..ptr + 3]);
      var item := Item(data[ptr] as int, FromLittleEndian(data[ptr + 3..ptr + 11]));
      ReplayRecords(data[ptr..], n, st) ==
        if ptr + 11 + len > |data| || !GoodLength(item.kind, len) || !InStore(item) then (st, false)
        else ReplayRecords(data[ptr + 11 + len..], n - 1,
                           st[item := Restored(item.kind, data[ptr + 11..ptr + 11 + len])])
  {
    var rest := data[ptr..];
    assert rest[1..3] == data[ptr + 1..ptr + 3] && rest[3..11] == data[ptr + 3..ptr + 11];
    var len := FromLittleEndian(rest[1..3]);
    if 11 + len <= |rest| {
      assert rest[11..11 + len] == data[ptr + 11..ptr + 11 + len] && rest[11 + len..] == data[ptr + 11 + len..];
    }
  }

  /** Replaying the `n` records behind the cursor on `st` ends in `goal`. */
  ghost predicate Leads(data: Bytes, ptr: nat, n: nat, st: Store, goal: (Store, bool)) {
    ptr <= |data| && forall k: nat | k == n :: ReplayRecords(data[ptr..], k, st) == goal
  }

  lemma LeadsToEnd(data: Bytes, ptr: nat, st: Store, goal: (Store, bool))
    requires Leads(data, ptr, 0, st, goal)
    ensures goal == (st, ptr == |data|)
  {
    assert ReplayRecords(data[ptr..], 0, st) == goal;
  }

  lemma LeadsNowhere(data: Bytes, ptr: nat, n: nat, st: Store, goal: (Store, bool))
    requires n > 0 && Leads(data, ptr, n, st, goal) && ptr + 11 > |data|
    ensures goal == (st, false)
  {
    assert ReplayRecords(data[ptr..], n, st) == goal;
  }

  lemma LeadsOn(data: Bytes, ptr: nat, n: nat, st: Store, goal: (Store, bool), len: nat, item: Item)
    requires n > 0 && Leads(data, ptr, n, st, goal) && ptr + 11 <= |data|
    requires len == FromLittleEndian(data[ptr + 1..ptr + 3])
    requires item == Item(data[ptr] as int, FromLittleEndian(data[ptr + 3..ptr + 11]))
    requires ptr + 11 + len <= |data| && GoodLength(item.kind, len) && InStore(item)
    ensures Leads(data, ptr + 11 + len, n - 1, st[item := Restored(item.kind, data[ptr + 11..ptr + 11 + len])], goal)
  {
    ReplayStep(data, ptr, n, st);
  }

  lemma LeadsToRefusal(data: Bytes, ptr: nat, n: nat, st: Store, goal: (Store, bool), len: nat, item: Item)
    requires n > 0 && Leads(data, ptr, n, st, goal) && ptr + 11 <= |data|
    requires len == FromLittleEndian(data[ptr + 1..ptr + 3])
    requires item == Item(data[ptr] as int, FromLittleEndian(data[ptr + 3..ptr + 11]))
    requires ptr + 11 + len > |data| || !GoodLength(item.kind, len) || !InStore(item)
    ensures goal == (st, false)
  {
    ReplayStep(data, ptr, n, st);
  }

  class KvStore {
    var slots: Store

    /** One turn of the record loop: read the fields at the cursor and write the value. */
    method ReplayRecord(data: Bytes, ptr: nat, ghost n: nat, ghost goal: (Store, bool)) returns (ok: bool, next: nat)
      requires n > 0 && Leads(data, ptr, n, slots, goal)
      modifies this
      ensures if ok then ptr < next <= |data| && Leads(data, next, n - 1, slots, goal) else goal == (slots, false)
    {
      next := ptr + 11;
      if next > |data| {
        LeadsNowhere(data, ptr, n, slots, goal);
        return false, next;
      }
      var kind := data[ptr] as int;
      var len := FromLittleEndian(data[ptr + 1..ptr + 3]);
      var key := FromLittleEndian(data[ptr + 3..ptr + 11]);
      if next + len > |data| || !GoodLength(kind, len) || !InStore(Item(kind, key)) {
        LeadsToRefusal(data, ptr, n, slots, goal, len, Item(kind, key));
        return false, next;
      }
      LeadsOn(data, ptr, n, slots, goal, len, Item(kind, key));
      slots := slots[Item(kind, key) := Restored(kind, data[next..next + len])];
      return true, next + len;
    }

    /** The loop of replay_payload with its advancing read cursor. */
    method ReplayLoop(data: Bytes, start: nat, nitems: nat) returns (ok: bool)
      requires start <= |data|
      modifies this
      ensures (slots, ok) == ReplayRecords(data[start..], nitems, old(slots))
    {
      ghost var goal := ReplayRecords(data[start..], nitems, slots);
      var ptr, i := start, 0;
      while i < nitems
        invariant 0 <= i <= nitems && start <= ptr <= |data|
        invariant Leads(data, ptr, nitems - i, slots, goal)
      {
        ok, ptr := ReplayRecord(data, ptr, nitems - i, goal);
        if !ok {
          return;
        }
        i := i + 1;
      }
      LeadsToEnd(data, ptr, slots, goal);
      return ptr == |data|;
    }

    /** replayPayload after decryption. */
    method Replay(data: Bytes) returns (ok: bool)
      modifies this
      ensures (slots, ok) == ReplayPlaintext(data, old(slots))
    {
      if !GoodHeader(data) {
        return false;
      }
      ok := ReplayLoop(data, 8, FromLittleEndian(data[6..8]));
    }
  }

  // ------------------------------------------------------------------------------------------
  // Round trip
  // ------------------------------------------------------------------------------------------

  /** What survives the log: text loses everything after its first 539 characters. */
  function Kept(kind: int, v: Bytes): Bytes {
    if kind == TEXT && |v| >= STRING_LENGTH then v[..STRING_LENGTH - 1] else v
  }

  /** The store after each item of the batch has been set to what the log kept of its value. */
  function Restore(items: seq<Item>, from: Store, st: Store): Store
    requires Promoted(items, from)
    decreases items
  {
    if items == [] then st
    else Restore(items[1..], from, st[items[0] := Kept(items[0].kind, from[items[0]])])
  }

  lemma {:induction false} UpToNulOfText(v: Bytes, tail: Bytes)
    requires forall i | 0 <= i < |v| :: v[i] != 0
    requires tail == [] || tail[0] == 0
    ensures UpToNul(v + tail) == v
  {
    if v == [] {
      assert v + tail == tail;
    } else {
      assert (v + tail)[1..] == v[1..] + tail;
      UpToNulOfText(v[1..], tail);
    }
  }

  lemma RestoredIsKept(kind: int, v: Bytes)
    requires GoodKind(kind) && GoodValue(kind, v)
    ensures GoodLength(kind, |Recorded(kind, v)|)
    ensures Restored(kind, Recorded(kind, v)) == Kept(kind, v)
  {
    if kind == TEXT {
      if |v| < STRING_LENGTH - 1 {
        UpToNulOfText(v, [0]);
      } else {
        var w := v[..STRING_LENGTH - 1];
        UpToNulOfText(w, []);
        assert w + [] == w;
        assert Recorded(kind, v)[..STRING_LENGTH - 1] == w;
      }
    }
  }

  /** One record is read back field by field. */
  lemma RecordRoundTrip(item: Item, v: Bytes, rest: Bytes)
    requires InStore(item) && GoodValue(item.kind, v)
    ensures var data := Record(item, v) + rest; var b := Recorded(item.kind, v);
      && |data| == 11 + |b| + |rest|
      && data[0] as int == item.kind
      && FromLittleEndian(data[1..3]) == |b|
      && FromLittleEndian(data[3..11]) == item.rid
      && data[11..11 + |b|] == b && data[11 + |b|..] == rest
  {
    var data, b := Record(item, v) + rest, Recorded(item.kind, v);
    assert Pow(256, 2) == 0x1_0000 && Pow(256, 8) == TWO_64 by { Powers(); }
    LittleEndianRoundTrip(|b|, 2);
    LittleEndianRoundTrip(item.rid, 8);
    assert data[1..3] == ToLittleEndian(|b|, 2);
    assert data[3..11] == ToLittleEndian(item.rid, 8);
  }

  lemma Powers()
    ensures Pow(256, 2) == 0x1_0000 && Pow(256, 4) == 0x1_0000_0000 && Pow(256, 8) == TWO_64
  {
    assert Pow(256, 2) == 256 * Pow(256, 1);
    PowAdd(256, 2, 2);
    PowAdd(256, 4, 4);
  }

  lemma {:induction false} RecordsRoundTrip(items: seq<Item>, from: Store, st: Store)
    requires GoodStore(from) && Promoted(items, from)
    ensures ReplayRecords(Records(items, from), |items|, st) == (Restore(items, from, st), true)
    decreases items
  {
    if items != [] {
      var item := items[0];
      var v := from[item];
      RecordRoundTrip(item, v, Records(items[1..], from));
      RestoredIsKept(item.kind, v);
      RecordsRoundTrip(items[1..], from, st[item := Kept(item.kind, v)]);
    }
  }

  lemma HeaderRoundTrip(n: nat, rest: Bytes)
    requires n < 0x1_0000
    ensures var data := Header(n) + rest;
      GoodHeader(data) && FromLittleEndian(data[6..8]) == n && data[8..] == rest
  {
    var data := Header(n) + rest;
    Powers();
    LittleEndianRoundTrip(WAL_PAYLOAD_MAGIC, 4);
    LittleEndianRoundTrip(WAL_PAYLOAD_VERSION, 2);
    LittleEndianRoundTrip(n, 2);
    assert data[..4] == ToLittleEndian(WAL_PAYLOAD_MAGIC, 4);
    assert data[4..6] == ToLittleEndian(WAL_PAYLOAD_VERSION, 2);
    assert data[6..8] == ToLittleEndian(n, 2);
  }

  /** The first six bytes of a payload in the clear: the letters WLV1, then the version. */
  lemma HeaderBytes(n: nat)
    ensures Header(n)[..6] == [0x57, 0x4c, 0x56, 0x31, 1, 0]
    ensures Header(n)[6..] == [(n % 256) as byte, (n / 256 % 256) as byte]
  {
    var m, v := WAL_PAYLOAD_MAGIC, WAL_PAYLOAD_VERSION;
    assert ToLittleEndian(m, 4) == [(m % 256) as byte, (m / 256 % 256) as byte] + ToLittleEndian(m / 65536, 2);
    assert ToLittleEndian(m / 65536, 2) == [0x56, 0x31];
    assert ToLittleEndian(v, 2) == [1, 0];
    assert ToLittleEndian(n, 2) == [(n % 256) as byte, (n / 256 % 256) as byte];
  }

  // ------------------------------------------------------------------------------------------
  // What replay accepts
  // ------------------------------------------------------------------------------------------

  /** A record as it stands in a payload. */
  datatype Rec = Rec(item: Item, bytes: Bytes)

  ghost predicate GoodRec(r: Rec) {
    && InStore(r.item)
    && (r.item.kind == 0 ==> |r.bytes| == 4) && (r.item.kind == 1 ==> |r.bytes| == 4)
    && (r.item.kind == 2 ==> 1 <= |r.bytes| <= 540) && (r.item.kind == 3 ==> |r.bytes| == 8)
  }

  ghost predicate AllGood(recs: seq<Rec>) {
    forall i | 0 <= i < |recs| :: GoodRec(recs[i])
  }

  ghost function Encoded(recs: seq<Rec>): Bytes
    requires AllGood(recs)
  {
    if recs == [] then [] else EncodedOne(recs[0]) + Encoded(recs[1..])
  }

  ghost function EncodedOne(r: Rec): Bytes
    requires GoodRec(r)
  {
    [r.item.kind as byte] + ToLittleEndian(|r.bytes|, 2) + ToLittleEndian(r.item.rid, 8) + r.bytes
  }

  /** The store after writing the records one after another. */
  ghost function Written(recs: seq<Rec>, st: Store): Store
    decreases recs
  {
    if recs == [] then st
    else Written(recs[1..], st[recs[0].item := Restored(recs[0].item.kind, recs[0].bytes)])
  }

  lemma EncodedFields(r: Rec, rest: Bytes)
    requires GoodRec(r)
    ensures var data := EncodedOne(r) + rest;
      && |data| == 11 + |r.bytes| + |rest| && data[0] as int == r.item.kind
      && FromLittleEndian(data[1..3]) == |r.bytes| && FromLittleEndian(data[3..11]) == r.item.rid
      && data[11..11 + |r.bytes|] == r.bytes && data[11 + |r.bytes|..] == rest
  {
    var data := EncodedOne(r) + rest;
    assert Pow(256, 2) == 0x1_0000 && Pow(256, 8) == TWO_64 by { Powers(); }
    LittleEndianRoundTrip(|r.bytes|, 2);
    LittleEndianRoundTrip(r.item.rid, 8);
    assert data[1..3] == ToLittleEndian(|r.bytes|, 2);
    assert data[3..11] == ToLittleEndian(r.item.rid, 8);
  }

  lemma {:induction false} WellFormedIsAccepted(recs: seq<Rec>, st: Store)
    requires AllGood(recs)
    ensures ReplayRecords(Encoded(recs), |recs|, st) == (Written(recs, st), true)
    decreases recs
  {
    if recs != [] {
      var r := recs[0];
      EncodedFields(r, Encoded(recs[1..]));
      WellFormedIsAccepted(recs[1..], st[r.item := Restored(r.item.kind, r.bytes)]);
    }
  }

  lemma Reassemble(data: Bytes, len: nat)
    requires |data| >= 11 + len && len == FromLittleEndian(data[1..3])
    ensures data == ([data[0]] + ToLittleEndian(len, 2) + ToLittleEndian(FromLittleEndian(data[3..11]), 8)
                     + data[11..11 + len]) + data[11 + len..]
  {
    LittleEndianInverse(data[1..3]);
    LittleEndianInverse(data[3..11]);
  }

  /** The first record of accepted bytes. */
  lemma FirstRecord(data: Bytes, n: nat, st: Store) returns (r: Rec)
    requires n > 0 && ReplayRecords(data, n, st).1
    ensures GoodRec(r) && |data| >= 11 + |r.bytes| && data == EncodedOne(r) + data[11 + |r.bytes|..]
    ensures ReplayRecords(data, n, st) ==
      ReplayRecords(data[11 + |r.bytes|..], n - 1, st[r.item := Restored(r.item.kind, r.bytes)])
  {
    var len := FromLittleEndian(data[1..3]);
    r := Rec(Item(data[0] as int, FromLittleEndian(data[3..11])), data[11..11 + len]);
    Reassemble(data, len);
  }

  lemma {:induction false} AcceptedIsWellFormed(data: Bytes, n: nat, st: Store) returns (recs: seq<Rec>)
    requires ReplayRecords(data, n, st).1
    ensures |recs| == n && AllGood(recs) && data == Encoded(recs)
    decreases n
  {
    if n == 0 {
      recs := [];
    } else {
      var r := FirstRecord(data, n, st);
      var rest := AcceptedIsWellFormed(data[11 + |r.bytes|..], n - 1, st[r.item := Restored(r.item.kind, r.bytes)]);
      recs := [r] + rest;
      EncodedCons(r, rest);
    }
  }

  lemma EncodedCons(r: Rec, rest: seq<Rec>)
    requires GoodRec(r) && AllGood(rest)
    ensures AllGood([r] + rest) && Encoded([r] + rest) == EncodedOne(r) + Encoded(rest)
  {
    assert ([r] + rest)[1..] == rest;
  }

  ghost predicate IsPayload(data: Bytes, recs: seq<Rec>) {
    AllGood(recs) && |recs| < 0x1_0000 && data == Header(|recs|) + Encoded(recs)
  }

  /** Replay accepts exactly the well-formed payloads: a header that counts its records, each with a
      type from 0 to 3, a RID of a store and the length of its type, and nothing behind the last; it
      then writes the records in order. Everything else, cut short, too long or garbled, is refused. */
  lemma ReplayAcceptsIff(data: Bytes, st: Store)
    ensures ReplayPlaintext(data, st).1 <==> exists recs :: IsPayload(data, recs)
    ensures forall recs | IsPayload(data, recs) :: ReplayPlaintext(data, st) == (Written(recs, st), true)
  {
    forall recs | IsPayload(data, recs) ensures ReplayPlaintext(data, st) == (Written(recs, st), true) {
      HeaderRoundTrip(|recs|, Encoded(recs));
      WellFormedIsAccepted(recs, st);
    }
    if ReplayPlaintext(data, st).1 {
      var recs := AcceptedIsWellFormed(data[8..], FromLittleEndian(data[6..8]), st);
      HeaderOf(data);
      assert IsPayload(data, recs);
    }
  }

  lemma HeaderOf(data: Bytes)
    requires GoodHeader(data)
    ensures FromLittleEndian(data[6..8]) < 0x1_0000 && data == Header(FromLittleEndian(data[6..8])) + data[8..]
  {
    Powers();
    LittleEndianInverse(data[..4]);
    LittleEndianInverse(data[4..6]);
    LittleEndianInverse(data[6..8]);
    assert data == data[..4] + data[4..6] + data[6..8] + data[8..];
  }

  /** Every accepted batch replays without a failing check, consumes the payload exactly, sets each
      of its RIDs to what the log kept of its value and leaves every other RID alone. */
  lemma PayloadRoundTrip(c: Cipher, iv: nat, items: seq<Item>, from: Store, st: Store)
    requires c.Sound() && GoodStore(from) && Promoted(items, from)
    requires MaterializeBatch(c, iv, items, from, MATERIALIZE_CAPACITY).Some?
    ensures var payload := MaterializeBatch(c, iv, items, from, MATERIALIZE_CAPACITY).value;
      ReplayPayload(c, payload, st) == (Restore(items, from, st), true)
  {
    if items != [] {
      HeaderRoundTrip(|items|, Records(items, from));
      RecordsRoundTrip(items, from, st);
    }
  }

  lemma {:induction false} RestoreReads(items: seq<Item>, from: Store, st: Store, item: Item)
    requires Promoted(items, from)
    ensures item in items ==>
      item in Restore(items, from, st) && Restore(items, from, st)[item] == Kept(item.kind, from[item])
    ensures item !in items ==>
      (item in Restore(items, from, st) <==> item in st)
      && (item in st ==> Restore(items, from, st)[item] == st[item])
    decreases items
  {
    if items != [] {
      RestoreReads(items[1..], from, st[items[0] := Kept(items[0].kind, from[items[0]])], item);
    }
  }

  /** Recording a value and restoring the record gives the value back exactly when it is not a text
      of 540 characters or more. */
  lemma ValueSurvivesIffShort(kind: int, v: Bytes)
    requires GoodKind(kind) && GoodValue(kind, v)
    ensures Restored(kind, Recorded(kind, v)) == v <==> !(kind == TEXT && |v| > 539)
  {
    RestoredIsKept(kind, v);
  }
}
