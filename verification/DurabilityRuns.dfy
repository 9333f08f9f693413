/** The commit protocol read off its steps: what a backend wrote, logged and committed is what the
    enabled steps of the schedule say, and transactions go through.

    Sources: src/integrity_zone/postgresql-patches/pg14-commit-protocol.patch,
    src/privacy_zone/handler.cpp. */
module DurabilityRuns {
  import opened LittleEndian
  import WalBatches
  import opened WalCodec
  import opened Durability

  // ------------------------------------------------------------------------------------------
  // What the schedule says
  // ------------------------------------------------------------------------------------------

  /** Backend `b` writes a tuple: it is not committing, has no full batch waiting, and every item of
      the tuple has been promoted. */
  ghost predicate Appends(s: State, step: Step, b: nat) {
    && step.AppendTuple? && step.b == b < |s.backends|
    && !s.backends[b].committing && |s.backends[b].pending| < 3000
    && forall i | 0 <= i < |step.items| :: step.items[i] in s.store
  }

  /** Backend `b` writes its commit record: it has begun to commit and logged every payload. */
  ghost predicate Commits(s: State, step: Step, b: nat) {
    step == WriteCommit(b) && b < |s.backends| && s.backends[b].committing && s.backends[b].chunks == []
  }

  ghost predicate Aborts(s: State, step: Step, b: nat) {
    step == Step.Abort(b) && b < |s.backends| && !s.backends[b].committing
  }

  ghost predicate Promotes(s: State, step: Step, item: Item, value: Bytes) {
    step == Promote(item, value) && item !in s.store && InStore(item) && GoodValue(item.kind, value)
  }

  /** Everything backend `b` ever wrote. */
  ghost function Appended(c: Cipher, n: nat, schedule: seq<Step>, b: nat): seq<Item>
    requires c.Sound()
  {
    if schedule == [] then []
    else
      var front, last := schedule[..|schedule| - 1], schedule[|schedule| - 1];
      Appended(c, n, front, b) + if Appends(Exec(c, n, front), last, b) then last.items else []
  }

  /** What backend `b` wrote since it last committed or aborted. */
  ghost function Wrote(c: Cipher, n: nat, schedule: seq<Step>, b: nat): seq<Item>
    requires c.Sound()
  {
    if schedule == [] then []
    else
      var front, last := schedule[..|schedule| - 1], schedule[|schedule| - 1];
      var s := Exec(c, n, front);
      if Appends(s, last, b) then Wrote(c, n, front, b) + last.items
      else if Commits(s, last, b) || Aborts(s, last, b) then []
      else Wrote(c, n, front, b)
  }

  ghost function ItemsIn(chunks: seq<Chunk>): seq<Item> {
    if chunks == [] then [] else ItemsIn(chunks[..|chunks| - 1]) + chunks[|chunks| - 1].items
  }

  /** The items of the payloads of backend `b` in the log, in order. */
  ghost function LoggedBy(wal: seq<WalRecord>, b: nat): seq<Item> {
    if wal == [] then []
    else
      var last := wal[|wal| - 1];
      LoggedBy(wal[..|wal| - 1], b) + if last.Message? && last.chunk.owner == b then last.chunk.items else []
  }

  lemma AppendsIsPromoted(s: State, step: Step, b: nat)
    requires GoodStore(s.store)
    ensures Appends(s, step, b) <==>
      step.AppendTuple? && step.b == b < |s.backends| && !s.backends[b].committing
      && |s.backends[b].pending| < WalBatches.BATCH && Promoted(step.items, s.store)
  {
  }

  // ------------------------------------------------------------------------------------------
  // Conservation
  // ------------------------------------------------------------------------------------------

  lemma ItemsInSnoc(chunks: seq<Chunk>, chunk: Chunk)
    ensures ItemsIn(chunks + [chunk]) == ItemsIn(chunks) + chunk.items
  {
    assert (chunks + [chunk])[..|chunks|] == chunks;
  }

  lemma {:induction false} ItemsInCons(chunks: seq<Chunk>)
    requires chunks != []
    ensures ItemsIn(chunks) == chunks[0].items + ItemsIn(chunks[1..])
  {
    var n := |chunks| - 1;
    if n > 0 {
      ItemsInCons(chunks[..n]);
      assert chunks[..n][1..] == chunks[1..][..n - 1];
    } else {
      assert chunks[..0] == [] && chunks[1..] == [];
    }
  }

  lemma LoggedBySnoc(wal: seq<WalRecord>, r: WalRecord, b: nat)
    ensures LoggedBy(wal + [r], b)
         == LoggedBy(wal, b) + if r.Message? && r.chunk.owner == b then r.chunk.items else []
  {
    assert (wal + [r])[..|wal|] == wal;
  }

  /** Everything of backend `b` in the order in which it was written: logged, in payloads, pending. */
  ghost function Flow(s: State, b: nat): seq<Item>
    requires b < |s.backends|
  {
    LoggedBy(s.wal, b) + ItemsIn(s.backends[b].chunks) + s.backends[b].pending
  }

  ghost predicate OwnChunks(s: State) {
    forall b, i | 0 <= b < |s.backends| && 0 <= i < |s.backends[b].chunks| :: s.backends[b].chunks[i].owner == b
  }

  lemma Regroup(a: seq<Item>, b: seq<Item>, x: seq<Item>, y: seq<Item>)
    ensures a + (b + x) + y == a + b + (x + y)
    ensures (a + x) + b + y == a + (x + b) + y
    ensures a + b + (x + y) == a + b + x + y
  {
  }

  lemma OneBackendOwns(s: State, s': State, d: nat)
    requires OwnChunks(s) && d < |s.backends| == |s'.backends|
    requires forall e | 0 <= e < |s.backends| && e != d :: s'.backends[e] == s.backends[e]
    requires forall i | 0 <= i < |s'.backends[d].chunks| :: s'.backends[d].chunks[i].owner == d
    ensures OwnChunks(s')
  {
  }

  lemma MaterializeKeepsFlow(c: Cipher, s: State, d: nat, n: nat, iv: nat, b: nat)
    requires c.Sound() && d < |s.backends| && n <= |s.backends[d].pending| && b < |s.backends|
    requires OwnChunks(s)
    ensures var s' := MaterializeFirst(c, s, d, n, iv);
      |s'.backends| == |s.backends| && Flow(s', b) == Flow(s, b) && OwnChunks(s')
      && s'.backends[b].txn == s.backends[b].txn && s'.wal == s.wal
  {
    var s' := MaterializeFirst(c, s, d, n, iv);
    if s' != s {
      var B, B' := s.backends[d], s'.backends[d];
      var chunk := B'.chunks[|B.chunks|];
      assert B'.chunks == B.chunks + [chunk] && chunk.items == B.pending[..n] && B'.pending == B.pending[n..];
      OneBackendOwns(s, s', d);
      if b == d {
        ItemsInSnoc(B.chunks, chunk);
        var log, chunks, first, rest := LoggedBy(s.wal, b), ItemsIn(B.chunks), B.pending[..n], B.pending[n..];
        assert Flow(s', b) == log + (chunks + first) + rest;
        Regroup(log, chunks, first, rest);
        assert first + rest == B.pending;
      }
    }
  }

  lemma AppendKeepsFlow(c: Cipher, s: State, step: Step, b: nat)
    requires c.Sound() && Inv(c, s) && OwnChunks(s) && b < |s.backends| && step.AppendTuple?
    ensures var s' := Apply(c, s, step);
      |s'.backends| == |s.backends| && OwnChunks(s')
      && Flow(s', b) == Flow(s, b) + if Appends(s, step, b) then step.items else []
  {
    var s' := Apply(c, s, step);
    AppendsIsPromoted(s, step, step.b);
    if Appends(s, step, step.b) {
      OneBackendOwns(s, s', step.b);
    }
    if Appends(s, step, b) {
      var log, chunks, pending := LoggedBy(s.wal, b), ItemsIn(s.backends[b].chunks), s.backends[b].pending;
      assert Flow(s', b) == log + chunks + (pending + step.items);
      Regroup(log, chunks, pending, step.items);
      assert Flow(s, b) == log + chunks + pending;
    } else {
      assert s'.wal == s.wal && s'.backends[b] == s.backends[b];
      assert Flow(s, b) + [] == Flow(s, b);
    }
  }

  lemma BeginCommitKeepsFlow(c: Cipher, s: State, d: nat, iv: nat, b: nat)
    requires c.Sound() && OwnChunks(s) && b < |s.backends|
    ensures var s' := Apply(c, s, BeginCommit(d, iv));
      |s'.backends| == |s.backends| && OwnChunks(s') && Flow(s', b) == Flow(s, b)
  {
    if d < |s.backends| {
      MaterializeKeepsFlow(c, s, d, |s.backends[d].pending|, iv, b);
    }
  }

  lemma LogChunkKeepsFlow(c: Cipher, s: State, d: nat, b: nat)
    requires c.Sound() && OwnChunks(s) && b < |s.backends|
    ensures var s' := Apply(c, s, LogChunk(d));
      |s'.backends| == |s.backends| && OwnChunks(s') && Flow(s', b) == Flow(s, b)
  {
    if d < |s.backends| && s.backends[d].committing && s.backends[d].chunks != [] {
      var s', B := Apply(c, s, LogChunk(d)), s.backends[d];
      OneBackendOwns(s, s', d);
      var log, first := LoggedBy(s.wal, b), B.chunks[0];
      LoggedBySnoc(s.wal, Message(first), b);
      assert first.owner == d;
      if b == d {
        var rest, pending := ItemsIn(B.chunks[1..]), B.pending;
        ItemsInCons(B.chunks);
        assert Flow(s', b) == (log + first.items) + rest + pending;
        assert Flow(s, b) == log + (first.items + rest) + pending;
        Regroup(log, rest, first.items, pending);
      } else {
        assert log + [] == log;
      }
    }
  }

  lemma WriteCommitKeepsFlow(c: Cipher, s: State, d: nat, b: nat)
    requires c.Sound() && OwnChunks(s) && b < |s.backends|
    ensures var s' := Apply(c, s, WriteCommit(d));
      |s'.backends| == |s.backends| && OwnChunks(s') && Flow(s', b) == Flow(s, b)
  {
    if d < |s.backends| {
      LoggedBySnoc(s.wal, Commit(s.backends[d].txn), b);
      assert LoggedBy(s.wal, b) + [] == LoggedBy(s.wal, b);
    }
  }

  /** One step changes the flow of a backend only by what it writes. */
  lemma StepKeepsFlow(c: Cipher, s: State, step: Step, b: nat)
    requires c.Sound() && Inv(c, s) && OwnChunks(s) && b < |s.backends|
    ensures var s' := Apply(c, s, step);
      |s'.backends| == |s.backends| && OwnChunks(s')
      && Flow(s', b) == Flow(s, b) + if Appends(s, step, b) then step.items else []
  {
    assert Flow(s, b) + [] == Flow(s, b);
    match step {
      case Promote(_, _) =>
      case AppendTuple(_, _) => AppendKeepsFlow(c, s, step, b);
      case FlushBatch(d, iv) =>
        if d < |s.backends| && |s.backends[d].pending| >= WalBatches.BATCH {
          MaterializeKeepsFlow(c, s, d, WalBatches.BATCH, iv, b);
        }
      case BeginCommit(d, iv) => BeginCommitKeepsFlow(c, s, d, iv, b);
      case LogChunk(d) => LogChunkKeepsFlow(c, s, d, b);
      case WriteCommit(d) => WriteCommitKeepsFlow(c, s, d, b);
      case Abort(d) => if d < |s.backends| { OneBackendOwns(s, Apply(c, s, step), d); }
    }
  }

  /** Conservation: after every schedule, what backend `b` has logged, then what is in its payloads,
      then what is pending, is exactly what it ever wrote, in order, aborted or not. */
  lemma {:induction false} NothingIsLostOrDoubled(c: Cipher, n: nat, schedule: seq<Step>, b: nat)
    requires c.Sound() && b < n
    ensures var s := Exec(c, n, schedule);
      |s.backends| == n && OwnChunks(s) && Flow(s, b) == Appended(c, n, schedule, b)
  {
    if schedule != [] {
      var front := schedule[..|schedule| - 1];
      NothingIsLostOrDoubled(c, n, front, b);
      ExecInv(c, n, front);
      StepKeepsFlow(c, Exec(c, n, front), schedule[|schedule| - 1], b);
    }
  }

  // ------------------------------------------------------------------------------------------
  // Commit records
  // ------------------------------------------------------------------------------------------

  /** After every schedule the running transaction of backend `b` is what it wrote since its last
      commit or abort. */
  lemma {:induction false} TransactionIsWhatWasWritten(c: Cipher, n: nat, schedule: seq<Step>, b: nat)
    requires c.Sound() && b < n
    ensures var s := Exec(c, n, schedule); |s.backends| == n && s.backends[b].txn == Wrote(c, n, schedule, b)
  {
    if schedule != [] {
      var front, step := schedule[..|schedule| - 1], schedule[|schedule| - 1];
      var s := Exec(c, n, front);
      TransactionIsWhatWasWritten(c, n, front, b);
      NothingIsLostOrDoubled(c, n, front, b);
      ExecInv(c, n, front);
      StepChangesTxn(c, s, step, b);
    }
  }

  lemma StepChangesTxn(c: Cipher, s: State, step: Step, b: nat)
    requires c.Sound() && Inv(c, s) && OwnChunks(s) && b < |s.backends|
    ensures var s' := Apply(c, s, step);
      |s'.backends| == |s.backends|
      && s'.backends[b].txn ==
         if Appends(s, step, b) then s.backends[b].txn + step.items
         else if Commits(s, step, b) || Aborts(s, step, b) then [] else s.backends[b].txn
  {
    match step {
      case AppendTuple(d, _) => AppendsIsPromoted(s, step, d);
      case FlushBatch(d, iv) =>
        if d < |s.backends| && |s.backends[d].pending| >= WalBatches.BATCH {
          MaterializeKeepsFlow(c, s, d, WalBatches.BATCH, iv, b);
        }
      case BeginCommit(d, iv) =>
        if d < |s.backends| { MaterializeKeepsFlow(c, s, d, |s.backends[d].pending|, iv, b); }
      case _ =>
    }
  }

  /** A commit record holds exactly what its transaction wrote. */
  lemma CommitRecordsWhatWasWritten(c: Cipher, n: nat, schedule: seq<Step>, step: Step, b: nat)
    requires c.Sound() && b < n && Commits(Exec(c, n, schedule), step, b)
    ensures Exec(c, n, schedule + [step]).wal
         == Exec(c, n, schedule).wal + [WalRecord.Commit(Wrote(c, n, schedule, b))]
  {
    TransactionIsWhatWasWritten(c, n, schedule, b);
    assert (schedule + [step])[..|schedule|] == schedule;
  }

  lemma {:induction false} LogOnlyGrows(c: Cipher, n: nat, schedule: seq<Step>, k: nat)
    requires c.Sound() && k <= |schedule|
    ensures Exec(c, n, schedule[..k]).wal <= Exec(c, n, schedule).wal
    decreases |schedule|
  {
    if k == |schedule| {
      assert schedule[..k] == schedule;
    } else {
      var front := schedule[..|schedule| - 1];
      assert front[..k] == schedule[..k];
      LogOnlyGrows(c, n, front, k);
    }
  }

  /** Between step `i` and step `j` backend `b` neither commits nor aborts. */
  ghost predicate SameTransaction(c: Cipher, n: nat, schedule: seq<Step>, b: nat, i: nat, j: nat)
    requires c.Sound() && i <= j <= |schedule|
  {
    forall m | i <= m < j ::
      !Commits(Exec(c, n, schedule[..m]), schedule[m], b) && !Aborts(Exec(c, n, schedule[..m]), schedule[m], b)
  }

  lemma {:induction false} WrittenStaysWritten(
    c: Cipher, n: nat, schedule: seq<Step>, b: nat, i: nat, j: nat, item: Item)
    requires c.Sound() && i < j <= |schedule| && SameTransaction(c, n, schedule, b, i, j)
    requires Appends(Exec(c, n, schedule[..i]), schedule[i], b) && item in schedule[i].items
    ensures item in Wrote(c, n, schedule[..j], b)
    decreases j
  {
    assert schedule[..j][..j - 1] == schedule[..j - 1] && schedule[..j][j - 1] == schedule[j - 1];
    if i < j - 1 { WrittenStaysWritten(c, n, schedule, b, i, j - 1, item); }
  }

  /** Durability, step by step: a value promoted in step `p` and written by backend `b` in step `i`,
      whose transaction commits in step `j` with a commit record that survives the crash, is there
      after recovery, whatever else happened and whatever the crash left in the store; it is the
      promoted value if and only if that is not a text of more than 539 characters. */
  lemma CommittedWritesSurviveACrash(
    c: Cipher, n: nat, schedule: seq<Step>, kept: nat, found: Store,
    p: nat, i: nat, j: nat, b: nat, item: Item, value: Bytes)
    requires c.Sound() && p < i < j < |schedule| && b < n
    requires Promotes(Exec(c, n, schedule[..p]), schedule[p], item, value)
    requires Appends(Exec(c, n, schedule[..i]), schedule[i], b) && item in schedule[i].items
    requires SameTransaction(c, n, schedule, b, i, j) && Commits(Exec(c, n, schedule[..j]), schedule[j], b)
    requires |Exec(c, n, schedule[..j]).wal| < kept <= |Exec(c, n, schedule).wal|
    ensures var (st, ok) := Recover(c, Exec(c, n, schedule).wal[..kept], found);
      && ok && item in st && st[item] == Kept(item.kind, value)
      && (st[item] == value <==> !(item.kind == TEXT && |value| > 539))
  {
    var k := |Exec(c, n, schedule[..j]).wal|;
    WrittenStaysWritten(c, n, schedule, b, i, j, item);
    CommitRecordInLog(c, n, schedule, j, b);
    PromotedValue(c, n, schedule, p, item, value);
    CommittedValuesSurviveACrash(c, n, schedule, kept, found, k, item);
  }

  lemma CommitRecordInLog(c: Cipher, n: nat, schedule: seq<Step>, j: nat, b: nat)
    requires c.Sound() && b < n && j < |schedule| && Commits(Exec(c, n, schedule[..j]), schedule[j], b)
    ensures var k, wal := |Exec(c, n, schedule[..j]).wal|, Exec(c, n, schedule).wal;
      k < |wal| && wal[k] == WalRecord.Commit(Wrote(c, n, schedule[..j], b))
  {
    CommitRecordsWhatWasWritten(c, n, schedule[..j], schedule[j], b);
    assert schedule[..j + 1] == schedule[..j] + [schedule[j]];
    LogOnlyGrows(c, n, schedule, j + 1);
  }

  /** An item reads the value it was promoted with, from then on. */
  lemma PromotedValue(c: Cipher, n: nat, schedule: seq<Step>, p: nat, item: Item, value: Bytes)
    requires c.Sound() && p < |schedule| && Promotes(Exec(c, n, schedule[..p]), schedule[p], item, value)
    ensures item in Exec(c, n, schedule).store && Exec(c, n, schedule).store[item] == value
  {
    assert schedule[..p + 1][..p] == schedule[..p];
    ValuesAreWrittenOnce(c, n, schedule, p + 1, item);
  }

  // ------------------------------------------------------------------------------------------
  // Transactions go through
  // ------------------------------------------------------------------------------------------

  ghost function Run(c: Cipher, s: State, steps: seq<Step>): State
    requires c.Sound()
    decreases steps
  {
    if steps == [] then s else Run(c, Apply(c, s, steps[0]), steps[1..])
  }

  lemma {:induction false} RunConcat(c: Cipher, s: State, a: seq<Step>, b: seq<Step>)
    requires c.Sound()
    ensures Run(c, s, a + b) == Run(c, Run(c, s, a), b)
    decreases a
  {
    if a == [] {
      assert a + b == b;
    } else {
      assert (a + b)[1..] == a[1..] + b;
      RunConcat(c, Apply(c, s, a[0]), a[1..], b);
    }
  }

  lemma RunSnoc(c: Cipher, s: State, a: seq<Step>, step: Step)
    requires c.Sound()
    ensures Run(c, s, a + [step]) == Apply(c, Run(c, s, a), step)
  {
    RunConcat(c, s, a, [step]);
    assert [step][1..] == [];
  }

  lemma {:induction false} ExecRun(c: Cipher, n: nat, schedule: seq<Step>, steps: seq<Step>)
    requires c.Sound()
    ensures Exec(c, n, schedule + steps) == Run(c, Exec(c, n, schedule), steps)
    decreases steps
  {
    if steps == [] {
      assert schedule + steps == schedule;
    } else {
      var first := schedule + [steps[0]];
      assert first[..|schedule|] == schedule && schedule + steps == first + steps[1..];
      ExecRun(c, n, first, steps[1..]);
    }
  }

  ghost function Messages(chunks: seq<Chunk>): seq<WalRecord> {
    seq(|chunks|, i requires 0 <= i < |chunks| => Message(chunks[i]))
  }

  /** The payloads of a committing backend go into the log in order. */
  lemma {:induction false} LogAll(c: Cipher, s: State, b: nat) returns (steps: seq<Step>)
    requires c.Sound() && b < |s.backends| && s.backends[b].committing
    ensures Run(c, s, steps) ==
      Set(s, b, s.backends[b].(chunks := [])).(wal := s.wal + Messages(s.backends[b].chunks))
    decreases |s.backends[b].chunks|
  {
    var chunks := s.backends[b].chunks;
    if chunks == [] {
      steps := [];
      assert Set(s, b, s.backends[b].(chunks := [])).backends == s.backends && s.wal + Messages(chunks) == s.wal;
    } else {
      var s1 := Apply(c, s, LogChunk(b));
      var rest := LogAll(c, s1, b);
      steps := [LogChunk(b)] + rest;
      assert steps[1..] == rest;
      assert s.wal + Messages(chunks) == s.wal + [Message(chunks[0])] + Messages(chunks[1..]);
    }
  }

  /** A commit whose pending items are accepted goes through: the log gets the payloads made before,
      one for what was pending, and then the commit record of the transaction, and the backend is
      left with nothing. */
  lemma CommitGoesThrough(c: Cipher, s: State, b: nat, iv: nat) returns (steps: seq<Step>)
    requires c.Sound() && Inv(c, s) && b < |s.backends| && !s.backends[b].committing
    requires 0 < |s.backends[b].pending| < 3000 && Promoted(s.backends[b].pending, s.store)
    requires MaterializeBatch(c, iv, s.backends[b].pending, s.store, MATERIALIZE_CAPACITY).Some?
    ensures var B, s' := s.backends[b], Run(c, s, steps);
      var last := Chunk(b, iv, B.pending, MaterializeBatch(c, iv, B.pending, s.store, MATERIALIZE_CAPACITY).value);
      && s'.store == s.store && s'.backends == s.backends[b := BackendState(false, [], [], [])]
      && s'.wal == s.wal + Messages(B.chunks + [last]) + [WalRecord.Commit(B.txn)]
  {
    var B := s.backends[b];
    assert B.pending[..|B.pending|] == B.pending && B.pending[|B.pending|..] == [];
    var last := Chunk(b, iv, B.pending, MaterializeBatch(c, iv, B.pending, s.store, MATERIALIZE_CAPACITY).value);
    var begin := [BeginCommit(b, iv)];
    var s1 := Set(s, b, BackendState(true, [], B.chunks + [last], B.txn));
    assert begin[1..] == [] && Run(c, s, begin) == Apply(c, s, begin[0]) == s1;
    var log := LogAll(c, s1, b);
    RunConcat(c, s, begin, log);
    RunSnoc(c, s, begin + log, WriteCommit(b));
    steps := begin + log + [WriteCommit(b)];
  }

  /** A full batch that is accepted becomes a payload of the first 3000 pending items. */
  lemma FlushGoesThrough(c: Cipher, s: State, b: nat, iv: nat)
    requires c.Sound() && Inv(c, s) && b < |s.backends| && !s.backends[b].committing
    requires |s.backends[b].pending| >= 3000 && Promoted(s.backends[b].pending[..3000], s.store)
    requires MaterializeBatch(c, iv, s.backends[b].pending[..3000], s.store, MATERIALIZE_CAPACITY).Some?
    ensures var B := s.backends[b]; var batch := B.pending[..3000];
      Apply(c, s, FlushBatch(b, iv)) == Set(s, b, B.(pending := B.pending[3000..], chunks := B.chunks +
        [Chunk(b, iv, batch, MaterializeBatch(c, iv, batch, s.store, MATERIALIZE_CAPACITY).value)]))
  {
  }

  lemma {:induction false} PromoteAll(c: Cipher, s: State, values: Store) returns (steps: seq<Step>)
    requires c.Sound() && s.store == map[] && GoodStore(values)
    ensures Run(c, s, steps) == s.(store := values)
    decreases |values|
  {
    if values == map[] {
      steps := [];
    } else {
      var item :| item in values;
      var others := values - {item};
      assert others.Keys == values.Keys - {item};
      var before := PromoteAll(c, s, others);
      RunSnoc(c, s, before, Promote(item, values[item]));
      steps := before + [Promote(item, values[item])];
      assert others[item := values[item]] == values;
    }
  }

  /** Every transaction of promoted values that makes an accepted batch can happen, from promotion to
      commit record. */
  lemma EveryTransactionGoesThrough(c: Cipher, n: nat, b: nat, iv: nat, values: Store, items: seq<Item>)
    returns (schedule: seq<Step>)
    requires c.Sound() && b < n && GoodStore(values) && Promoted(items, values) && 0 < |items| < 3000
    requires MaterializeBatch(c, iv, items, values, MATERIALIZE_CAPACITY).Some?
    ensures var s := Exec(c, n, schedule);
      var payload := MaterializeBatch(c, iv, items, values, MATERIALIZE_CAPACITY).value;
      s.store == values && s.wal == [Message(Chunk(b, iv, items, payload)), WalRecord.Commit(items)]
  {
    var write := WriteGoesThrough(c, n, b, values, items);
    ExecInv(c, n, write);
    var s := Exec(c, n, write);
    var commit := CommitGoesThrough(c, s, b, iv);
    schedule := write + commit;
    ExecRun(c, n, write, commit);
    var payload := MaterializeBatch(c, iv, items, values, MATERIALIZE_CAPACITY).value;
    var last := Chunk(b, iv, items, payload);
    assert [] + Messages([] + [last]) + [WalRecord.Commit(items)] == [Message(last), WalRecord.Commit(items)];
  }

  lemma WriteGoesThrough(c: Cipher, n: nat, b: nat, values: Store, items: seq<Item>) returns (schedule: seq<Step>)
    requires c.Sound() && b < n && GoodStore(values) && Promoted(items, values)
    ensures var s := Exec(c, n, schedule);
      && s.store == values && s.wal == [] && b < |s.backends|
      && s.backends[b] == BackendState(false, items, [], items)
  {
    var s := Initial(n);
    var promote := PromoteAll(c, s, values);
    RunSnoc(c, s, promote, AppendTuple(b, items));
    schedule := promote + [AppendTuple(b, items)];
    ExecRun(c, n, [], schedule);
    assert [] + schedule == schedule && [] + items == items;
    assert s.(store := values).backends[b] == BackendState(false, [], [], []);
  }
}
