/** The commit protocol as a whole: many backends promote values, write tuples, materialise
    payloads and log them before their commit records; a crash keeps a prefix of the log and any
    part of the store; recovery replays the surviving payloads.

    Sources: src/integrity_zone/postgresql-patches/pg14-commit-protocol.patch (tuple, commit and redo
    hooks), src/privacy_zone/include/wal.hpp, src/privacy_zone/handler.cpp. */
module Durability {
  import opened LittleEndian
  import opened Options
  import WalBatches
  import opened WalCodec

  /** An encrypted payload; the backend that asked for it, the vector and the item list it was made
      from are kept for the proof. */
  datatype Chunk = Chunk(owner: nat, iv: nat, items: seq<Item>, payload: Bytes)

  /** A commit record is annotated, for the proof, with the items its transaction wrote. */
  datatype WalRecord = Message(chunk: Chunk) | Commit(items: seq<Item>)

  /** `txn` is what the running transaction wrote. Aborting forgets that, but neither the pending
      items nor the payloads: the patch has no abort hook. */
  datatype BackendState = BackendState(committing: bool, pending: seq<Item>, chunks: seq<Chunk>, txn: seq<Item>)

  datatype State = State(store: Store, backends: seq<BackendState>, wal: seq<WalRecord>)

  datatype Step =
    | Promote(item: Item, value: Bytes)              // put of a value at a fresh RID
    | AppendTuple(b: nat, items: seq<Item>)
    | FlushBatch(b: nat, iv: nat)                    // ZenoWalMaterializeFullBatches, one batch
    | BeginCommit(b: nat, iv: nat)                   // ZenoWalMaterializePending
    | LogChunk(b: nat)                               // ZenoWalLogPendingPayloads, one payload
    | WriteCommit(b: nat)                            // XactLogCommitRecord
    | Abort(b: nat)

  function Set(s: State, b: nat, backend: BackendState): State
    requires b < |s.backends|
  {
    s.(backends := s.backends[b := backend])
  }

  /** The request CMD_WAL_MATERIALIZE_BATCH for the first `n` pending items. If a check fails the
      server process ends; the model then leaves the state as it is. */
  ghost function MaterializeFirst(c: Cipher, s: State, b: nat, n: nat, iv: nat): (s': State)
    requires c.Sound() && b < |s.backends| && n <= |s.backends[b].pending|
  {
    var B := s.backends[b];
    var batch := B.pending[..n];
    if !GoodStore(s.store) || !Promoted(batch, s.store) then s
    else
      match MaterializeBatch(c, iv, batch, s.store, MATERIALIZE_CAPACITY)
      case None => s
      case Some(payload) =>
        Set(s, b, B.(pending := B.pending[n..], chunks := B.chunks + [Chunk(b, iv, batch, payload)]))
  }

  /** One step; a step that is not enabled changes nothing. */
  ghost function Apply(c: Cipher, s: State, step: Step): (s': State)
    requires c.Sound()
  {
    match step
    case Promote(item, value) =>
      if item !in s.store && InStore(item) && GoodValue(item.kind, value)
      then s.(store := s.store[item := value]) else s
    case AppendTuple(b, items) =>
      if b < |s.backends| && !s.backends[b].committing && |s.backends[b].pending| < WalBatches.BATCH
         && Promoted(items, s.store)
      then Set(s, b, s.backends[b].(pending := s.backends[b].pending + items, txn := s.backends[b].txn + items))
      else s
    case FlushBatch(b, iv) =>
      if b < |s.backends| && !s.backends[b].committing && |s.backends[b].pending| >= WalBatches.BATCH
      then MaterializeFirst(c, s, b, WalBatches.BATCH, iv) else s
    case BeginCommit(b, iv) =>
      if b < |s.backends| && !s.backends[b].committing && |s.backends[b].pending| < WalBatches.BATCH then
        var s1 := if s.backends[b].pending == [] then s else MaterializeFirst(c, s, b, |s.backends[b].pending|, iv);
        if s1.backends[b].pending == [] then Set(s1, b, s1.backends[b].(committing := true)) else s
      else s
    case LogChunk(b) =>
      if b < |s.backends| && s.backends[b].committing && s.backends[b].chunks != [] then
        var s1 := Set(s, b, s.backends[b].(chunks := s.backends[b].chunks[1..]));
        s1.(wal := s.wal + [Message(s.backends[b].chunks[0])])
      else s
    case WriteCommit(b) =>
      if b < |s.backends| && s.backends[b].committing && s.backends[b].chunks == [] then
        var s1 := Set(s, b, s.backends[b].(committing := false, txn := []));
        s1.(wal := s.wal + [Commit(s.backends[b].txn)])
      else s
    case Abort(b) =>
      if b < |s.backends| && !s.backends[b].committing then Set(s, b, s.backends[b].(txn := [])) else s
  }

  function Initial(n: nat): State {
    State(map[], seq(n, _ => BackendState(false, [], [], [])), [])
  }

  ghost function Exec(c: Cipher, n: nat, schedule: seq<Step>): (s: State)
    requires c.Sound()
  {
    if schedule == [] then Initial(n)
    else Apply(c, Exec(c, n, schedule[..|schedule| - 1]), schedule[|schedule| - 1])
  }

  /** Recovery: logicalmsg_redo for every surviving payload in order, on whatever the store file
      holds after the crash. The flag is false when any check failed. */
  function Recover(c: Cipher, wal: seq<WalRecord>, found: Store): (r: (Store, bool)) {
    if wal == [] then (found, true)
    else
      var (st, ok) := Recover(c, wal[..|wal| - 1], found);
      match wal[|wal| - 1]
      case Commit(_) => (st, ok)
      case Message(chunk) =>
        if !ok || |chunk.payload| > REPLAY_CAPACITY then (st, false)
        else ReplayPayload(c, chunk.payload, st)
  }

  // ------------------------------------------------------------------------------------------
  // Invariant
  // ------------------------------------------------------------------------------------------

  /** The payload was made from these items, and their values have not changed since. */
  ghost predicate Genuine(c: Cipher, store: Store, chunk: Chunk)
    requires c.Sound() && GoodStore(store)
  {
    Promoted(chunk.items, store)
    && MaterializeBatch(c, chunk.iv, chunk.items, store, MATERIALIZE_CAPACITY) == Some(chunk.payload)
  }

  ghost predicate LoggedBefore(wal: seq<WalRecord>, k: nat, item: Item)
    requires k <= |wal|
  {
    exists j | 0 <= j < k :: wal[j].Message? && item in wal[j].chunk.items
  }

  ghost predicate Covered(s: State, B: BackendState, item: Item) {
    item in B.pending || (exists i | 0 <= i < |B.chunks| :: item in B.chunks[i].items)
    || LoggedBefore(s.wal, |s.wal|, item)
  }

  ghost predicate BackendInv(c: Cipher, s: State, B: BackendState)
    requires c.Sound() && GoodStore(s.store)
  {
    && Promoted(B.pending, s.store)
    && (forall i | 0 <= i < |B.chunks| :: Genuine(c, s.store, B.chunks[i]))
    && (forall item | item in B.txn :: item in s.store && Covered(s, B, item))
    && (B.committing ==> B.pending == [])
  }

  ghost predicate WalInv(c: Cipher, s: State)
    requires c.Sound() && GoodStore(s.store)
  {
    forall k | 0 <= k < |s.wal| ::
      match s.wal[k]
      case Message(chunk) => Genuine(c, s.store, chunk)
      case Commit(items) => forall item | item in items :: item in s.store && LoggedBefore(s.wal, k, item)
  }

  ghost predicate Inv(c: Cipher, s: State)
    requires c.Sound()
  {
    && GoodStore(s.store)
    && (forall b | 0 <= b < |s.backends| :: BackendInv(c, s, s.backends[b]))
    && WalInv(c, s)
  }

  // ------------------------------------------------------------------------------------------
  // Steps keep the invariant
  // ------------------------------------------------------------------------------------------

  lemma {:induction false} RecordsOfGrownStore(items: seq<Item>, st: Store, st': Store)
    requires GoodStore(st) && GoodStore(st') && Promoted(items, st)
    requires forall item | item in st :: item in st' && st'[item] == st[item]
    ensures Promoted(items, st') && Records(items, st) == Records(items, st')
  {
    if items != [] { RecordsOfGrownStore(items[1..], st, st'); }
  }

  lemma StillGenuine(c: Cipher, st: Store, st': Store, chunk: Chunk)
    requires c.Sound() && GoodStore(st) && GoodStore(st') && Genuine(c, st, chunk)
    requires forall item | item in st :: item in st' && st'[item] == st[item]
    ensures Genuine(c, st', chunk)
  {
    RecordsOfGrownStore(chunk.items, st, st');
  }

  lemma PromoteKeeps(c: Cipher, s: State, item: Item, value: Bytes)
    requires c.Sound() && Inv(c, s)
    ensures Inv(c, Apply(c, s, Promote(item, value)))
  {
    var s' := Apply(c, s, Promote(item, value));
    forall b | 0 <= b < |s'.backends| ensures BackendInv(c, s', s'.backends[b]) {
      var B := s.backends[b];
      assert BackendInv(c, s, B);
      forall i | 0 <= i < |B.chunks| ensures Genuine(c, s'.store, B.chunks[i]) {
        StillGenuine(c, s.store, s'.store, B.chunks[i]);
      }
      assert forall it | it in B.txn :: Covered(s', B, it) by {
        assert forall it | it in B.txn :: Covered(s, B, it);
      }
    }
    forall k | 0 <= k < |s'.wal| && s'.wal[k].Message? ensures Genuine(c, s'.store, s'.wal[k].chunk) {
      StillGenuine(c, s.store, s'.store, s.wal[k].chunk);
    }
  }

  lemma LogGrows(wal: seq<WalRecord>, r: WalRecord, k: nat, item: Item)
    requires k <= |wal|
    ensures LoggedBefore(wal, k, item) ==> LoggedBefore(wal + [r], k, item)
    ensures LoggedBefore(wal, |wal|, item) ==> LoggedBefore(wal + [r], |wal| + 1, item)
    ensures r.Message? && item in r.chunk.items ==> LoggedBefore(wal + [r], |wal| + 1, item)
  {
    var wal' := wal + [r];
    if LoggedBefore(wal, |wal|, item) {
      var j :| 0 <= j < |wal| && wal[j].Message? && item in wal[j].chunk.items;
      assert wal'[j] == wal[j];
      if k <= |wal| && LoggedBefore(wal, k, item) {
        var i :| 0 <= i < k && wal[i].Message? && item in wal[i].chunk.items;
        assert wal'[i] == wal[i];
      }
    }
    assert wal'[|wal|] == r;
  }

  /** A backend that does not step keeps its invariant when the log grows. */
  lemma BystanderKeeps(c: Cipher, s: State, s': State, B: BackendState)
    requires c.Sound() && GoodStore(s.store) && BackendInv(c, s, B)
    requires s'.store == s.store && (s'.wal == s.wal || (|s'.wal| == |s.wal| + 1 && s'.wal[..|s.wal|] == s.wal))
    ensures BackendInv(c, s', B)
  {
    forall item | item in B.txn ensures Covered(s', B, item) {
      assert Covered(s, B, item);
      if |s'.wal| > |s.wal| {
        assert s'.wal == s.wal + [s'.wal[|s.wal|]];
        LogGrows(s.wal, s'.wal[|s.wal|], |s.wal|, item);
      }
    }
  }

  /** Only backend `b` and perhaps the end of the log change. */
  lemma OneBackendMoves(c: Cipher, s: State, s': State, b: nat)
    requires c.Sound() && Inv(c, s) && b < |s.backends| == |s'.backends| && s'.store == s.store
    requires forall d | 0 <= d < |s.backends| && d != b :: s'.backends[d] == s.backends[d]
    requires s'.wal == s.wal || (|s'.wal| == |s.wal| + 1 && s'.wal[..|s.wal|] == s.wal)
    requires BackendInv(c, s', s'.backends[b]) && WalInv(c, s')
    ensures Inv(c, s')
  {
    forall d | 0 <= d < |s'.backends| ensures BackendInv(c, s', s'.backends[d]) {
      if d != b { BystanderKeeps(c, s, s', s.backends[d]); }
    }
  }

  lemma MaterializeKeeps(c: Cipher, s: State, b: nat, n: nat, iv: nat)
    requires c.Sound() && Inv(c, s) && b < |s.backends| && n <= |s.backends[b].pending|
    requires !s.backends[b].committing
    ensures Inv(c, MaterializeFirst(c, s, b, n, iv))
  {
    var s' := MaterializeFirst(c, s, b, n, iv);
    var B, B' := s.backends[b], s'.backends[b];
    assert BackendInv(c, s, B);
    if s' != s {
      forall item | item in B.txn ensures Covered(s', B', item) {
        assert Covered(s, B, item);
        if item in B.pending[..n] {
          assert item in B'.chunks[|B.chunks|].items;
        } else if item in B.pending {
          assert B.pending == B.pending[..n] + B.pending[n..];
        } else if exists i | 0 <= i < |B.chunks| :: item in B.chunks[i].items {
          var i :| 0 <= i < |B.chunks| && item in B.chunks[i].items;
          assert B'.chunks[i] == B.chunks[i];
        }
      }
      OneBackendMoves(c, s, s', b);
    }
  }

  lemma AppendKeeps(c: Cipher, s: State, b: nat, items: seq<Item>)
    requires c.Sound() && Inv(c, s)
    ensures Inv(c, Apply(c, s, AppendTuple(b, items)))
  {
    var s' := Apply(c, s, AppendTuple(b, items));
    if s' != s {
      var B, B' := s.backends[b], s'.backends[b];
      assert BackendInv(c, s, B);
      forall item | item in B'.txn ensures item in s'.store && Covered(s', B', item) {
        if item in items { assert item in B'.pending; } else { assert Covered(s, B, item); }
      }
      OneBackendMoves(c, s, s', b);
    }
  }

  lemma SameBackendButFlags(c: Cipher, s: State, B: BackendState, B': BackendState)
    requires c.Sound() && GoodStore(s.store) && BackendInv(c, s, B)
    requires B'.pending == B.pending && B'.chunks == B.chunks && (B'.txn == B.txn || B'.txn == [])
    requires B'.committing ==> B'.pending == []
    ensures BackendInv(c, s, B')
  {
    forall item | item in B'.txn ensures Covered(s, B', item) {
      assert Covered(s, B, item);
    }
  }

  lemma BeginCommitKeeps(c: Cipher, s: State, b: nat, iv: nat)
    requires c.Sound() && Inv(c, s)
    ensures Inv(c, Apply(c, s, BeginCommit(b, iv)))
  {
    var s' := Apply(c, s, BeginCommit(b, iv));
    if s' != s {
      var s1 := if s.backends[b].pending == [] then s else MaterializeFirst(c, s, b, |s.backends[b].pending|, iv);
      MaterializeKeeps(c, s, b, |s.backends[b].pending|, iv);
      assert Inv(c, s1);
      SameBackendButFlags(c, s1, s1.backends[b], s'.backends[b]);
      BystanderKeeps(c, s1, s', s'.backends[b]);
      OneBackendMoves(c, s1, s', b);
    }
  }

  lemma AbortKeeps(c: Cipher, s: State, b: nat)
    requires c.Sound() && Inv(c, s)
    ensures Inv(c, Apply(c, s, Abort(b)))
  {
    var s' := Apply(c, s, Abort(b));
    if s' != s {
      SameBackendButFlags(c, s, s.backends[b], s'.backends[b]);
      BystanderKeeps(c, s, s', s'.backends[b]);
      OneBackendMoves(c, s, s', b);
    }
  }

  lemma WalAppend(c: Cipher, s: State, s': State, r: WalRecord)
    requires c.Sound() && Inv(c, s) && s'.store == s.store && s'.wal == s.wal + [r]
    requires match r
      case Message(chunk) => Genuine(c, s.store, chunk)
      case Commit(items) => forall item | item in items :: item in s.store && LoggedBefore(s.wal, |s.wal|, item)
    ensures WalInv(c, s')
  {
    forall k, item | 0 <= k < |s'.wal| && s'.wal[k].Commit? && item in s'.wal[k].items
      ensures item in s'.store && LoggedBefore(s'.wal, k, item)
    {
      if k < |s.wal| { assert s'.wal[k] == s.wal[k]; }
      LogGrows(s.wal, r, k, item);
    }
    forall k | 0 <= k < |s'.wal| && s'.wal[k].Message? ensures Genuine(c, s'.store, s'.wal[k].chunk) {
      if k < |s.wal| { assert s'.wal[k] == s.wal[k]; }
    }
  }

  lemma LogChunkKeeps(c: Cipher, s: State, b: nat)
    requires c.Sound() && Inv(c, s)
    ensures Inv(c, Apply(c, s, LogChunk(b)))
  {
    var s' := Apply(c, s, LogChunk(b));
    if s'.wal != s.wal {
      var B, B' := s.backends[b], s'.backends[b];
      var chunk := B.chunks[0];
      assert BackendInv(c, s, B);
      forall item | item in B'.txn ensures Covered(s', B', item) {
        assert Covered(s, B, item);
        LogGrows(s.wal, Message(chunk), |s.wal|, item);
        if item !in chunk.items && !LoggedBefore(s.wal, |s.wal|, item) && item !in B.pending {
          var i :| 0 <= i < |B.chunks| && item in B.chunks[i].items;
          assert B'.chunks[i - 1] == B.chunks[i];
        }
      }
      WalAppend(c, s, s', Message(chunk));
      OneBackendMoves(c, s, s', b);
    }
  }

  lemma WriteCommitKeeps(c: Cipher, s: State, b: nat)
    requires c.Sound() && Inv(c, s)
    ensures Inv(c, Apply(c, s, WriteCommit(b)))
  {
    var s' := Apply(c, s, WriteCommit(b));
    if s'.wal != s.wal {
      var B := s.backends[b];
      assert BackendInv(c, s, B);
      forall item | item in B.txn ensures LoggedBefore(s.wal, |s.wal|, item) {
        assert Covered(s, B, item);
      }
      WalAppend(c, s, s', Commit(B.txn));
      OneBackendMoves(c, s, s', b);
    }
  }

  lemma ApplyKeeps(c: Cipher, s: State, step: Step)
    requires c.Sound() && Inv(c, s)
    ensures Inv(c, Apply(c, s, step))
  {
    match step
    case Promote(item, value) => PromoteKeeps(c, s, item, value);
    case AppendTuple(b, items) => AppendKeeps(c, s, b, items);
    case FlushBatch(b, iv) =>
      if b < |s.backends| && !s.backends[b].committing && |s.backends[b].pending| >= WalBatches.BATCH {
        MaterializeKeeps(c, s, b, WalBatches.BATCH, iv);
      }
    case BeginCommit(b, iv) => BeginCommitKeeps(c, s, b, iv);
    case LogChunk(b) => LogChunkKeeps(c, s, b);
    case WriteCommit(b) => WriteCommitKeeps(c, s, b);
    case Abort(b) => AbortKeeps(c, s, b);
  }

  lemma {:induction false} ExecInv(c: Cipher, n: nat, schedule: seq<Step>)
    requires c.Sound()
    ensures Inv(c, Exec(c, n, schedule))
  {
    if schedule != [] {
      ExecInv(c, n, schedule[..|schedule| - 1]);
      ApplyKeeps(c, Exec(c, n, schedule[..|schedule| - 1]), schedule[|schedule| - 1]);
    }
  }

  // ------------------------------------------------------------------------------------------
  // Main results
  // ------------------------------------------------------------------------------------------

  /** Promoted values never change: what a transaction wrote is what any later state holds. */
  lemma {:induction false} ValuesAreWrittenOnce(c: Cipher, n: nat, schedule: seq<Step>, k: nat, item: Item)
    requires c.Sound() && k <= |schedule| && item in Exec(c, n, schedule[..k]).store
    ensures item in Exec(c, n, schedule).store
    ensures Exec(c, n, schedule).store[item] == Exec(c, n, schedule[..k]).store[item]
    decreases |schedule|
  {
    if k == |schedule| {
      assert schedule[..k] == schedule;
    } else {
      var before := schedule[..|schedule| - 1];
      assert before[..k] == schedule[..k];
      ValuesAreWrittenOnce(c, n, before, k, item);
    }
  }

  lemma RecoverOneMore(c: Cipher, store: Store, wal: seq<WalRecord>, found: Store)
    requires c.Sound() && GoodStore(store) && wal != [] && Recover(c, wal[..|wal| - 1], found).1
    requires wal[|wal| - 1].Message? && Genuine(c, store, wal[|wal| - 1].chunk)
    ensures var items := wal[|wal| - 1].chunk.items;
      Recover(c, wal, found) == (Restore(items, store, Recover(c, wal[..|wal| - 1], found).0), true)
  {
    var chunk := wal[|wal| - 1].chunk;
    AcceptedBatches(c, chunk.iv, chunk.items, store);
    PayloadRoundTrip(c, chunk.iv, chunk.items, store, Recover(c, wal[..|wal| - 1], found).0);
  }

  lemma LoggedLastOrEarlier(wal: seq<WalRecord>, item: Item)
    requires wal != [] && LoggedBefore(wal, |wal|, item)
    ensures var n := |wal| - 1;
      (wal[n].Message? && item in wal[n].chunk.items) || LoggedBefore(wal[..n], n, item)
  {
    var j :| 0 <= j < |wal| && wal[j].Message? && item in wal[j].chunk.items;
    if j < |wal| - 1 { assert wal[..|wal| - 1][j] == wal[j]; }
  }

  ghost predicate ReadsKept(st: Store, store: Store, item: Item)
    requires item in store
  {
    item in st && st[item] == Kept(item.kind, store[item])
  }

  /** Replaying a genuine log on any store succeeds and restores every item that was logged. */
  lemma {:induction false} RecoverRestores(c: Cipher, store: Store, wal: seq<WalRecord>, found: Store, item: Item)
    requires c.Sound() && GoodStore(store) && item in store
    requires forall k | 0 <= k < |wal| && wal[k].Message? :: Genuine(c, store, wal[k].chunk)
    ensures Recover(c, wal, found).1
    ensures LoggedBefore(wal, |wal|, item) ==> ReadsKept(Recover(c, wal, found).0, store, item)
    decreases |wal|
  {
    if wal != [] {
      var n := |wal| - 1;
      var front := wal[..n];
      assert forall k | 0 <= k < n :: front[k] == wal[k];
      RecoverRestores(c, store, front, found, item);
      if LoggedBefore(wal, |wal|, item) { LoggedLastOrEarlier(wal, item); }
      if wal[n].Message? {
        RecoverOneMore(c, store, wal, found);
        RestoreReads(wal[n].chunk.items, store, Recover(c, front, found).0, item);
      }
    }
  }

  /** Durability: after any run of any number of backends, a crash that keeps the first `kept`
      records of the log and leaves anything at all in the store, followed by recovery, lets every
      item of every transaction whose commit record survived read back its value (a text of more
      than 539 characters: its first 539). Recovery itself runs without a failing check. */
  lemma CommittedValuesSurviveACrash(
    c: Cipher, n: nat, schedule: seq<Step>, kept: nat, found: Store, k: nat, item: Item)
    requires c.Sound()
    requires k < kept <= |Exec(c, n, schedule).wal|
    requires Exec(c, n, schedule).wal[k].Commit? && item in Exec(c, n, schedule).wal[k].items
    ensures var s := Exec(c, n, schedule); var (st, ok) := Recover(c, s.wal[..kept], found);
      && ok && item in s.store && item in st
      && st[item] == Kept(item.kind, s.store[item])
      && (st[item] == s.store[item] <==> !(item.kind == TEXT && |s.store[item]| > 539))
  {
    ExecInv(c, n, schedule);
    var s := Exec(c, n, schedule);
    var wal := s.wal[..kept];
    assert LoggedBefore(s.wal, k, item);
    var j :| 0 <= j < k && s.wal[j].Message? && item in s.wal[j].chunk.items;
    assert wal[j] == s.wal[j];
    RecoverRestores(c, s.store, wal, found, item);
  }
}
