/** The shared, append-only text store under interleaved puts and replaces of many workers. The
    index reservation, the byte reservation, the offset write and every byte copied are separate
    steps; the two fetch-and-add operations are atomic.

    Source: src/privacy_zone/include/file-map-operator.hpp, FileMapKVStore<char *> with
    USE_VARLEN_STRING. */
module TextArena {
  import opened Options

  const MAX_ARRAY_ELE_NUM: nat := 512 * 1024 * 1024
  const STORE_SIZE: nat := (0x100_0000_0000 - 4096) - MAX_ARRAY_ELE_NUM * 8

  /** C strings: no NUL inside. */
  ghost predicate IsText(v: string) {
    forall i | 0 <= i < |v| :: v[i] != '\0'
  }

  type Text = v: string | IsText(v)

  datatype Request = Put(value: Text) | Replace(target: nat, value: Text)

  datatype Pc =
    | Start                                              // nothing reserved
    | HasKey(key: nat)                                   // index known and in range
    | HasRoom(key: nat, pos: nat)                        // bytes reserved, offset not written
    | Copying(key: nat, pos: nat, copied: set<nat>)      // offset written, bytes in any order
    | Complete(key: nat, pos: nat)
    | Failed                                             // a range check stopped the process

  datatype Op = Op(req: Request, pc: Pc)

  /** `writer` tells, for the proof only, which operation wrote the offset of a key. */
  datatype State = State(
    curRid: nat, curOffset: nat, offsets: map<nat, nat>, arena: map<nat, char>,
    ops: seq<Op>, writer: map<nat, nat>)

  datatype Step = Spawn(req: Request) | Advance(i: nat) | CopyByte(i: nat, k: nat)

  /** Byte `k` of the NUL-terminated value. */
  function ByteAt(v: string, k: nat): char {
    if k < |v| then v[k] else '\0'
  }

  predicate AllCopied(v: string, copied: set<nat>) {
    forall k | 0 <= k <= |v| :: k in copied
  }

  function SetPc(s: State, i: nat, pc: Pc): State
    requires i < |s.ops|
  {
    s.(ops := s.ops[i := s.ops[i].(pc := pc)])
  }

  function Apply(s: State, step: Step): (s': State) {
    match step
    case Spawn(req) => s.(ops := s.ops + [Op(req, Start)])
    case Advance(i) => if i < |s.ops| then AdvanceOp(s, i) else s
    case CopyByte(i, k) =>
      if i < |s.ops| && s.ops[i].pc.Copying? && k <= |s.ops[i].req.value| then
        var Op(req, Copying(key, pos, copied)) := s.ops[i];
        SetPc(s.(arena := s.arena[pos + k := ByteAt(req.value, k)]), i, Copying(key, pos, copied + {k}))
      else s
  }

  function AdvanceOp(s: State, i: nat): (s': State)
    requires i < |s.ops|
  {
    var value := s.ops[i].req.value;
    var room := |value| + 1;
    match s.ops[i].pc
    case Start =>
      (match s.ops[i].req
       case Put(_) =>
         SetPc(s.(curRid := s.curRid + 1), i, if s.curRid < MAX_ARRAY_ELE_NUM then HasKey(s.curRid) else Failed)
       case Replace(key, _) => SetPc(s, i, if key < MAX_ARRAY_ELE_NUM then HasKey(key) else Failed))
    case HasKey(key) =>
      SetPc(s.(curOffset := s.curOffset + room), i,
            if s.curOffset + room <= STORE_SIZE then HasRoom(key, s.curOffset) else Failed)
    case HasRoom(key, pos) =>
      SetPc(s.(offsets := s.offsets[key := pos], writer := s.writer[key := i]), i, Copying(key, pos, {}))
    case Copying(key, pos, copied) =>
      if AllCopied(value, copied) then SetPc(s, i, Complete(key, pos)) else s
    case _ => s
  }

  function Initial(): State {
    State(0, 0, map[], map[], [], map[])
  }

  function Exec(schedule: seq<Step>): (s: State) {
    if schedule == [] then Initial()
    else Apply(Exec(schedule[..|schedule| - 1]), schedule[|schedule| - 1])
  }

  // ------------------------------------------------------------------------------------------
  // Meaning
  // ------------------------------------------------------------------------------------------

  /** Reading from `pos` to the first NUL gives exactly `v`; the file starts out zeroed. */
  ghost predicate ReadsAs(arena: map<nat, char>, pos: nat, v: string) {
    IsText(v) && forall k: nat | k <= |v| :: (if pos + k in arena then arena[pos + k] else '\0') == ByteAt(v, k)
  }

  lemma ReadingIsUnique(arena: map<nat, char>, pos: nat, v: string, w: string)
    requires ReadsAs(arena, pos, v) && ReadsAs(arena, pos, w)
    ensures v == w
  {
    var m := if |v| < |w| then |v| else |w|;
    assert ByteAt(v, m) == ByteAt(w, m);
    forall k: nat | k < |v| && k < |w| ensures v[k] == w[k] {
      assert ByteAt(v, k) == ByteAt(w, k);
    }
  }

  /** The abstract map: a key denotes the value of the last operation that wrote its offset, once
      that operation is complete. */
  function Lookup(s: State, key: nat): Option<string> {
    if key in s.writer && s.writer[key] < |s.ops| && s.ops[s.writer[key]].pc.Complete?
    then Some(s.ops[s.writer[key]].req.value) else None
  }

  // ------------------------------------------------------------------------------------------
  // Invariant
  // ------------------------------------------------------------------------------------------

  ghost predicate HasExtent(pc: Pc) {
    pc.HasRoom? || pc.Copying? || pc.Complete?
  }

  ghost predicate KnowsKey(pc: Pc) {
    pc.HasKey? || HasExtent(pc)
  }

  ghost predicate OpInv(s: State, i: nat)
    requires i < |s.ops|
  {
    var Op(req, pc) := s.ops[i];
    && (KnowsKey(pc) ==> pc.key < MAX_ARRAY_ELE_NUM)
    && (KnowsKey(pc) ==> if req.Put? then pc.key < s.curRid else pc.key == req.target)
    && (HasExtent(pc) ==> pc.pos + |req.value| + 1 <= s.curOffset && pc.pos + |req.value| + 1 <= STORE_SIZE)
    && (pc.Copying? ==> forall k | k in pc.copied :: k <= |req.value| && Written(s.arena, pc.pos, req.value, k))
    && (pc.Complete? ==> forall k: nat | k <= |req.value| :: Written(s.arena, pc.pos, req.value, k))
  }

  ghost predicate Written(arena: map<nat, char>, pos: nat, value: string, k: nat) {
    pos + k in arena && arena[pos + k] == ByteAt(value, k)
  }

  ghost predicate Apart(a: Op, b: Op) {
    && (HasExtent(a.pc) && HasExtent(b.pc) ==>
          a.pc.pos + |a.req.value| < b.pc.pos || b.pc.pos + |b.req.value| < a.pc.pos)
    && (a.req.Put? && b.req.Put? && KnowsKey(a.pc) && KnowsKey(b.pc) ==> a.pc.key != b.pc.key)
  }

  ghost predicate WriterInv(s: State, key: nat)
    requires key in s.writer
  {
    var i := s.writer[key];
    && i < |s.ops| && (s.ops[i].pc.Copying? || s.ops[i].pc.Complete?)
    && s.ops[i].pc.key == key && key in s.offsets && s.offsets[key] == s.ops[i].pc.pos
  }

  ghost predicate Inv(s: State) {
    && (forall i | 0 <= i < |s.ops| :: OpInv(s, i))
    && (forall i, j | 0 <= i < j < |s.ops| :: Apart(s.ops[i], s.ops[j]))
    && (forall key | key in s.writer :: WriterInv(s, key))
    && s.offsets.Keys == s.writer.Keys
  }

  lemma ApartFrom(s: State, i: nat, j: nat)
    requires Inv(s) && i < |s.ops| && j < |s.ops| && i != j
    ensures Apart(s.ops[i], s.ops[j])
  {
    if i < j { assert Apart(s.ops[i], s.ops[j]); } else { assert Apart(s.ops[j], s.ops[i]); }
  }

  /** Bytes outside the extent of op `i` stay as they are. */
  ghost predicate OnlyOwnBytes(s: State, s': State, i: nat)
    requires i < |s.ops|
  {
    var Op(req, pc) := s.ops[i];
    forall a | a in s.arena && !(HasExtent(pc) && pc.pos <= a <= pc.pos + |req.value|) ::
      a in s'.arena && s'.arena[a] == s.arena[a]
  }

  lemma OtherOpKeeps(s: State, s': State, i: nat, j: nat)
    requires Inv(s) && i < |s.ops| && j < |s.ops| == |s'.ops| && i != j && s'.ops[j] == s.ops[j]
    requires s.curRid <= s'.curRid && s.curOffset <= s'.curOffset && OnlyOwnBytes(s, s', i)
    ensures OpInv(s', j)
  {
    assert OpInv(s, j);
    ApartFrom(s, i, j);
    var Op(req, pc) := s.ops[j];
    forall k: nat | k <= |req.value| && (pc.Copying? || pc.Complete?) && Written(s.arena, pc.pos, req.value, k)
      ensures Written(s'.arena, pc.pos, req.value, k)
    {
      assert pc.pos + k in s.arena;
    }
  }

  /** Only op `i` moves: the invariant is kept if it is kept for `i`. */
  lemma OneOpMoves(s: State, s': State, i: nat)
    requires Inv(s) && i < |s.ops| == |s'.ops|
    requires forall j | 0 <= j < |s.ops| && j != i :: s'.ops[j] == s.ops[j]
    requires s'.ops[i].req == s.ops[i].req
    requires s.curRid <= s'.curRid && s.curOffset <= s'.curOffset
    requires OnlyOwnBytes(s, s', i)
    requires OpInv(s', i)
    requires forall j | 0 <= j < |s.ops| && j != i :: Apart(s'.ops[i], s.ops[j])
    requires forall key | key in s'.writer :: WriterInv(s', key)
    requires s'.offsets.Keys == s'.writer.Keys
    ensures Inv(s')
  {
    forall j | 0 <= j < |s'.ops| ensures OpInv(s', j) {
      if j != i { OtherOpKeeps(s, s', i, j); }
    }
    forall a, b | 0 <= a < b < |s'.ops| ensures Apart(s'.ops[a], s'.ops[b]) {
      if a != i && b != i { assert Apart(s.ops[a], s.ops[b]); }
    }
  }

  lemma AdvanceKeepsOp(s: State, i: nat)
    requires Inv(s) && i < |s.ops|
    ensures OpInv(AdvanceOp(s, i), i)
  {
    assert OpInv(s, i);
  }

  lemma AdvanceKeepsApart(s: State, i: nat, j: nat)
    requires Inv(s) && i < |s.ops| && j < |s.ops| && i != j
    ensures Apart(AdvanceOp(s, i).ops[i], s.ops[j])
  {
    ApartFrom(s, i, j);
    assert OpInv(s, j);
  }

  lemma AdvanceKeepsWriter(s: State, i: nat, key: nat)
    requires Inv(s) && i < |s.ops| && key in AdvanceOp(s, i).writer
    ensures WriterInv(AdvanceOp(s, i), key)
  {
    if key in s.writer { assert WriterInv(s, key); }
    if s.ops[i].pc.HasRoom? { } else if s.ops[i].pc.Copying? { }
  }

  lemma AdvanceFrame(s: State, i: nat)
    requires i < |s.ops|
    ensures var s' := AdvanceOp(s, i);
      && |s'.ops| == |s.ops| && (forall j | 0 <= j < |s.ops| && j != i :: s'.ops[j] == s.ops[j])
      && s'.ops[i].req == s.ops[i].req && s'.arena == s.arena
      && s.curRid <= s'.curRid && s.curOffset <= s'.curOffset
  {
  }

  lemma AdvanceKeepsKeys(s: State, i: nat)
    requires s.offsets.Keys == s.writer.Keys && i < |s.ops|
    ensures AdvanceOp(s, i).offsets.Keys == AdvanceOp(s, i).writer.Keys
  {
  }

  lemma AdvanceKeeps(s: State, i: nat)
    requires Inv(s) && i < |s.ops|
    ensures Inv(AdvanceOp(s, i))
  {
    var s' := AdvanceOp(s, i);
    AdvanceFrame(s, i);
    AdvanceKeepsKeys(s, i);
    AdvanceKeepsOp(s, i);
    forall j | 0 <= j < |s.ops| && j != i ensures Apart(s'.ops[i], s.ops[j]) {
      AdvanceKeepsApart(s, i, j);
    }
    forall key | key in s'.writer ensures WriterInv(s', key) {
      AdvanceKeepsWriter(s, i, key);
    }
    OneOpMoves(s, s', i);
  }

  lemma CopyKeeps(s: State, i: nat, k: nat)
    requires Inv(s) && i < |s.ops| && s.ops[i].pc.Copying? && k <= |s.ops[i].req.value|
    ensures Inv(Apply(s, CopyByte(i, k)))
  {
    var s' := Apply(s, CopyByte(i, k));
    assert OpInv(s, i);
    forall j | 0 <= j < |s.ops| && j != i ensures Apart(s'.ops[i], s.ops[j]) {
      ApartFrom(s, i, j);
    }
    forall key | key in s'.writer ensures WriterInv(s', key) {
      assert WriterInv(s, key);
    }
    OneOpMoves(s, s', i);
  }

  lemma ApplyKeeps(s: State, step: Step)
    requires Inv(s)
    ensures Inv(Apply(s, step))
  {
    match step
    case Spawn(req) =>
      var s' := Apply(s, step);
      forall j | 0 <= j < |s'.ops| ensures OpInv(s', j) {
        if j < |s.ops| { assert OpInv(s, j); }
      }
      forall key | key in s'.writer ensures WriterInv(s', key) {
        assert WriterInv(s, key);
      }
    case Advance(i) => if i < |s.ops| { AdvanceKeeps(s, i); }
    case CopyByte(i, k) =>
      if i < |s.ops| && s.ops[i].pc.Copying? && k <= |s.ops[i].req.value| { CopyKeeps(s, i, k); }
  }

  lemma {:induction false} ExecInv(schedule: seq<Step>)
    ensures Inv(Exec(schedule))
  {
    if schedule != [] {
      ExecInv(schedule[..|schedule| - 1]);
      ApplyKeeps(Exec(schedule[..|schedule| - 1]), schedule[|schedule| - 1]);
    }
  }

  // ------------------------------------------------------------------------------------------
  // Main results
  // ------------------------------------------------------------------------------------------

  /** In every schedule two puts never get the same key and no two text extents overlap. */
  lemma ReservationsAreDisjoint(schedule: seq<Step>, i: nat, j: nat)
    requires i < |Exec(schedule).ops| && j < |Exec(schedule).ops| && i != j
    ensures Apart(Exec(schedule).ops[i], Exec(schedule).ops[j])
  {
    ExecInv(schedule);
    ApartFrom(Exec(schedule), i, j);
  }

  /** In every schedule the bytes behind a key read as the value the abstract map gives it. */
  lemma CompleteKeysReadBack(schedule: seq<Step>, key: nat)
    requires Lookup(Exec(schedule), key).Some?
    ensures var s := Exec(schedule);
      key < MAX_ARRAY_ELE_NUM && key in s.offsets && ReadsAs(s.arena, s.offsets[key], Lookup(s, key).value)
  {
    ExecInv(schedule);
    WriterReadsBack(Exec(schedule), key);
  }

  lemma WriterReadsBack(s: State, key: nat)
    requires Inv(s) && Lookup(s, key).Some?
    ensures key < MAX_ARRAY_ELE_NUM && key in s.offsets && ReadsAs(s.arena, s.offsets[key], Lookup(s, key).value)
  {
    assert WriterInv(s, key);
    assert OpInv(s, s.writer[key]);
    var v, pos := Lookup(s, key).value, s.offsets[key];
    forall k: nat | k <= |v| ensures pos + k in s.arena && s.arena[pos + k] == ByteAt(v, k) {
      assert Written(s.arena, pos, v, k);
    }
  }

  /** What a step may do to the abstract map at `key`. */
  function Effect(s: State, step: Step, key: nat): Option<string> {
    if step.Advance? && step.i < |s.ops| then
      match s.ops[step.i].pc
      case HasRoom(k, _) => if k == key then None else Lookup(s, key)
      case Copying(k, _, copied) =>
        if k == key && AllCopied(s.ops[step.i].req.value, copied) && key in s.writer && s.writer[key] == step.i
        then Some(s.ops[step.i].req.value) else Lookup(s, key)
      case _ => Lookup(s, key)
    else Lookup(s, key)
  }

  /** In every schedule a step changes the abstract map at most at the key of the operation that
      steps: writing the offset makes the key undefined, completing the operation that wrote it last
      defines it as the new value, and no other step shows. */
  lemma StepsRefineTheMap(schedule: seq<Step>, step: Step, key: nat)
    ensures Lookup(Exec(schedule + [step]), key) == Effect(Exec(schedule), step, key)
  {
    ExecInv(schedule);
    assert (schedule + [step])[..|schedule|] == schedule;
    ApplyHasEffect(Exec(schedule), step, key);
  }

  lemma ApplyHasEffect(s: State, step: Step, key: nat)
    requires Inv(s)
    ensures Lookup(Apply(s, step), key) == Effect(s, step, key)
  {
    if key in s.writer { assert WriterInv(s, key); }
  }

  // ------------------------------------------------------------------------------------------
  // Fresh keys: replace does not advance the index counter
  // ------------------------------------------------------------------------------------------

  /** If the step starts a replace, its target is below the index counter. */
  ghost predicate StaysBelow(s: State, step: Step) {
    StartsReplace(s, step) ==> s.ops[step.i].req.target < s.curRid
  }

  ghost predicate ReplacesStayBelow(schedule: seq<Step>) {
    forall n | 0 <= n < |schedule| :: StaysBelow(Exec(schedule[..n]), schedule[n])
  }

  ghost predicate KeysBelowCounter(s: State) {
    && (forall i | 0 <= i < |s.ops| && KnowsKey(s.ops[i].pc) :: s.ops[i].pc.key < s.curRid)
    && (forall key | key in s.offsets :: key < s.curRid)
  }

  lemma FreshStep(s: State, step: Step)
    requires KeysBelowCounter(s) && StaysBelow(s, step)
    ensures KeysBelowCounter(Apply(s, step))
  {
  }

  /** Then no put ever returns a key that is in use: the next key, `curRid`, has no offset yet. */
  lemma {:induction false} PutsAreFresh(schedule: seq<Step>)
    requires ReplacesStayBelow(schedule)
    ensures KeysBelowCounter(Exec(schedule))
    ensures Exec(schedule).curRid !in Exec(schedule).offsets
  {
    if schedule != [] {
      var n := |schedule| - 1;
      var before := schedule[..n];
      forall m | 0 <= m < n ensures StaysBelow(Exec(before[..m]), before[m]) {
        assert before[..m] == schedule[..m];
      }
      PutsAreFresh(before);
      FreshStep(Exec(before), schedule[n]);
    }
  }

  function Run(s: State, steps: seq<Step>): State
    decreases steps
  {
    if steps == [] then s else Run(Apply(s, steps[0]), steps[1..])
  }

  /** No step of the run starts a replace. */
  predicate PutOnly(s: State, steps: seq<Step>)
    decreases steps
  {
    steps == [] || (!StartsReplace(s, steps[0]) && PutOnly(Apply(s, steps[0]), steps[1..]))
  }

  predicate StartsReplace(s: State, step: Step) {
    step.Advance? && step.i < |s.ops| && s.ops[step.i].pc.Start? && s.ops[step.i].req.Replace?
  }

  /** A put is about to be given the key `curRid`. */
  predicate HandsOutKey(s: State, step: Step) {
    step.Advance? && step.i < |s.ops| && s.ops[step.i].pc.Start? && s.ops[step.i].req.Put?
    && s.curRid < MAX_ARRAY_ELE_NUM
  }

  /** The key has an offset, or an operation is about to give it one. */
  ghost predicate InUse(s: State, key: nat) {
    key in s.offsets || exists i | 0 <= i < |s.ops| && KnowsKey(s.ops[i].pc) :: s.ops[i].pc.key == key
  }

  /** Every key the run hands out is unused at that moment. */
  ghost predicate HandsOutUnused(s: State, steps: seq<Step>)
    decreases steps
  {
    steps == []
    || ((HandsOutKey(s, steps[0]) ==> !InUse(s, s.curRid)) && HandsOutUnused(Apply(s, steps[0]), steps[1..]))
  }

  lemma {:induction false} FreshRun(s: State, steps: seq<Step>)
    requires KeysBelowCounter(s) && PutOnly(s, steps)
    ensures HandsOutUnused(s, steps)
    decreases steps
  {
    if steps != [] {
      FreshStep(s, steps[0]);
      FreshRun(Apply(s, steps[0]), steps[1..]);
    }
  }

  lemma {:induction false} Collides(s: State, key: nat) returns (steps: seq<Step>)
    requires InUse(s, key) && s.curRid <= key < MAX_ARRAY_ELE_NUM
    ensures PutOnly(s, steps) && !HandsOutUnused(s, steps)
    decreases key - s.curRid
  {
    var spawned := Apply(s, Spawn(Put("")));
    var next := Apply(spawned, Advance(|s.ops|));
    StillInUse(s, spawned, key);
    StillInUse(s, next, key);
    var rest := [];
    if key > s.curRid { rest := Collides(next, key); }
    steps := [Spawn(Put("")), Advance(|s.ops|)] + rest;
    assert steps[1..] == [Advance(|s.ops|)] + rest && steps[1..][1..] == rest;
    assert PutOnly(spawned, steps[1..]);
    assert !HandsOutUnused(spawned, steps[1..]) by {
      assert HandsOutKey(spawned, steps[1..][0]);
      if key > s.curRid { assert !HandsOutUnused(next, rest); }
    }
  }

  lemma StillInUse(s: State, s': State, key: nat)
    requires InUse(s, key) && s'.offsets == s.offsets && |s.ops| <= |s'.ops|
    requires forall i | 0 <= i < |s.ops| :: s'.ops[i] == s.ops[i]
    ensures InUse(s', key)
  {
    if key !in s.offsets {
      var i :| 0 <= i < |s.ops| && KnowsKey(s.ops[i].pc) && s.ops[i].pc.key == key;
      assert s'.ops[i] == s.ops[i];
    }
  }

  lemma UsedKeysInRange(s: State, key: nat)
    requires Inv(s) && InUse(s, key)
    ensures key < MAX_ARRAY_ELE_NUM
  {
    if key in s.offsets {
      assert WriterInv(s, key);
      assert OpInv(s, s.writer[key]);
    } else {
      var i :| 0 <= i < |s.ops| && KnowsKey(s.ops[i].pc) && s.ops[i].pc.key == key;
      assert OpInv(s, i);
    }
  }

  /** Exactly when puts are safe: from a reachable state, every run that starts no replace hands out
      unused keys only, if and only if every key in use is below the index counter. */
  lemma PutsAreFreshIff(s: State)
    requires Inv(s)
    ensures (forall steps: seq<Step> | PutOnly(s, steps) :: HandsOutUnused(s, steps)) <==> KeysBelowCounter(s)
  {
    if KeysBelowCounter(s) {
      forall steps: seq<Step> | PutOnly(s, steps) ensures HandsOutUnused(s, steps) {
        FreshRun(s, steps);
      }
    } else {
      var key: nat;
      if i :| 0 <= i < |s.ops| && KnowsKey(s.ops[i].pc) && s.ops[i].pc.key >= s.curRid {
        key := s.ops[i].pc.key;
      } else {
        key :| key in s.offsets && key >= s.curRid;
      }
      UsedKeysInRange(s, key);
      var steps := Collides(s, key);
    }
  }

  // ------------------------------------------------------------------------------------------
  // What a collision costs
  // ------------------------------------------------------------------------------------------

  lemma {:induction false} RunConcat(s: State, a: seq<Step>, b: seq<Step>)
    ensures Run(s, a + b) == Run(Run(s, a), b)
    ensures PutOnly(s, a + b) <==> PutOnly(s, a) && PutOnly(Run(s, a), b)
    decreases a
  {
    if a == [] {
      assert a + b == b;
    } else {
      assert (a + b)[1..] == a[1..] + b;
      RunConcat(Apply(s, a[0]), a[1..], b);
    }
  }

  lemma {:induction false} ExecRun(schedule: seq<Step>, steps: seq<Step>)
    ensures Exec(schedule + steps) == Run(Exec(schedule), steps)
    decreases steps
  {
    if steps == [] {
      assert schedule + steps == schedule;
    } else {
      var first := schedule + [steps[0]];
      assert first[..|schedule|] == schedule && schedule + steps == first + steps[1..];
      ExecRun(first, steps[1..]);
    }
  }

  /** Puts of `value` alone reserve any index the counter has not passed. */
  lemma {:induction false} ReserveKey(s: State, key: nat, value: Text) returns (steps: seq<Step>)
    requires s.curRid <= key < MAX_ARRAY_ELE_NUM
    ensures PutOnly(s, steps)
    ensures var s' := Run(s, steps);
      |s'.ops| > 0 && s'.ops[|s'.ops| - 1] == Op(Put(value), HasKey(key))
      && s'.offsets == s.offsets && s'.curOffset == s.curOffset
    decreases key - s.curRid
  {
    var spawned := Apply(s, Spawn(Put(value)));
    var next := Apply(spawned, Advance(|s.ops|));
    var rest := [];
    if key > s.curRid { rest := ReserveKey(next, key, value); }
    steps := [Spawn(Put(value)), Advance(|s.ops|)] + rest;
    assert steps[1..] == [Advance(|s.ops|)] + rest && steps[1..][1..] == rest;
    assert Run(spawned, steps[1..]) == Run(next, rest);
    assert PutOnly(spawned, steps[1..]);
  }

  /** An operation that has its offset written copies its bytes. */
  lemma {:induction false} CopyAll(s: State, i: nat, n: nat) returns (steps: seq<Step>)
    requires i < |s.ops| && s.ops[i].pc.Copying? && n <= |s.ops[i].req.value| + 1
    ensures PutOnly(s, steps)
    ensures var s' := Run(s, steps);
      && |s'.ops| == |s.ops| && s'.ops[i].req == s.ops[i].req && s'.writer == s.writer && s'.curRid == s.curRid
      && s'.curOffset == s.curOffset
      && s'.ops[i].pc.Copying? && s'.ops[i].pc.key == s.ops[i].pc.key
      && forall k: nat | k < n :: k in s'.ops[i].pc.copied
  {
    if n == 0 {
      steps := [];
    } else {
      var front := CopyAll(s, i, n - 1);
      var s1, last := Run(s, front), [CopyByte(i, n - 1)];
      RunConcat(s, front, last);
      assert last[1..] == [] && Run(s1, last) == Apply(s1, last[0]);
      steps := front + last;
    }
  }

  /** An operation that has its key runs to completion if there is room for its bytes. */
  lemma CompleteOp(s: State, i: nat) returns (steps: seq<Step>)
    requires i < |s.ops| && s.ops[i].pc.HasKey? && s.curOffset + |s.ops[i].req.value| + 1 <= STORE_SIZE
    ensures PutOnly(s, steps)
    ensures Lookup(Run(s, steps), s.ops[i].pc.key) == Some(s.ops[i].req.value)
    ensures Run(s, steps).curRid == s.curRid
    ensures Run(s, steps).curOffset == s.curOffset + |s.ops[i].req.value| + 1
  {
    var begin := [Advance(i), Advance(i)];
    var s1 := Apply(s, Advance(i));
    var s2 := Apply(s1, Advance(i));
    assert begin[1..] == [Advance(i)] && begin[1..][1..] == [];
    assert Run(s1, begin[1..]) == s2 && PutOnly(s1, begin[1..]);
    var copies := CopyAll(s2, i, |s.ops[i].req.value| + 1);
    var s3, end := Run(s2, copies), [Advance(i)];
    assert end[1..] == [] && Run(s3, end) == Apply(s3, end[0]) && PutOnly(s3, end);
    RunConcat(s2, copies, end);
    RunConcat(s, begin, copies + end);
    steps := begin + (copies + end);
  }

  /** From any state, a run of puts alone replaces whatever a key at or above the counter denotes by
      the value of a put. */
  lemma StaleCounterLosesTheValue(s: State, key: nat, value: Text) returns (steps: seq<Step>)
    requires s.curRid <= key < MAX_ARRAY_ELE_NUM && s.curOffset + |value| + 1 <= STORE_SIZE
    ensures PutOnly(s, steps) && Lookup(Run(s, steps), key) == Some(value)
  {
    var reserve := ReserveKey(s, key, value);
    var s1 := Run(s, reserve);
    var complete := CompleteOp(s1, |s1.ops| - 1);
    RunConcat(s, reserve, complete);
    steps := reserve + complete;
  }

  /** And such states are reached: one replace, as recovery issues it, makes any key denote its value
      with the counter still at 0, and puts alone then make the key denote another value. */
  lemma ReplayedValueIsLost(key: nat, value: Text, other: Text) returns (schedule: seq<Step>, puts: seq<Step>)
    requires key < MAX_ARRAY_ELE_NUM && |value| + |other| + 2 <= STORE_SIZE
    ensures Lookup(Exec(schedule), key) == Some(value) && Exec(schedule).curRid == 0
    ensures PutOnly(Exec(schedule), puts) && Lookup(Exec(schedule + puts), key) == Some(other)
  {
    var start := [Spawn(Replace(key, value)), Advance(0)];
    var s0 := Initial();
    var s1 := Apply(s0, start[0]);
    var s2 := Apply(s1, start[1]);
    assert start[1..] == [Advance(0)] && start[1..][1..] == [] && Run(s1, start[1..]) == s2;
    var complete := CompleteOp(s2, 0);
    schedule := start + complete;
    RunConcat(s0, start, complete);
    ExecRun([], schedule);
    assert [] + schedule == schedule;
    puts := StaleCounterLosesTheValue(Exec(schedule), key, other);
    ExecRun(schedule, puts);
  }
}
