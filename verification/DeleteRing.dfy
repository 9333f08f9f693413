/** The ring of deleted RIDs with its three cursors: [head, reuse) is committed, [reuse, tail)
    belongs to the running transaction.

    Source: src/integrity_zone/include/delete_queue.hpp, class DeleteQueue, and the transaction hook
    of src/integrity_zone/extension.cpp. */
module DeleteRing {
  import opened Arith
  import opened Options

  type RID = nat

  const MAX_ELE_NUM: nat := 1024 * 1024

  function CountBetween(begin: nat, end: nat): (n: int)
    requires begin < MAX_ELE_NUM && end < MAX_ELE_NUM
  {
    if end >= begin then end - begin else MAX_ELE_NUM - begin + end
  }

  function At(head: nat, k: nat): (i: nat)
    ensures i < MAX_ELE_NUM
  {
    (head + k) % MAX_ELE_NUM
  }

  lemma AtNext(head: nat, k: nat)
    ensures (At(head, k) + 1) % MAX_ELE_NUM == At(head, k + 1)
    ensures At((head + 1) % MAX_ELE_NUM, k) == At(head, k + 1)
  {
    ModSum(head + k, 1, MAX_ELE_NUM);
    ModSum(head + 1, k, MAX_ELE_NUM);
  }

  lemma AtInjective(head: nat, i: nat, j: nat)
    requires i < j < MAX_ELE_NUM
    ensures At(head, i) != At(head, j)
  {
    ModShift(head + i, j - i, MAX_ELE_NUM);
  }

  /** The slots from `head` on hold `all`. */
  ghost predicate Window(queue: seq<RID>, head: nat, all: seq<RID>)
    requires |queue| == MAX_ELE_NUM
  {
    forall k | 0 <= k < |all| :: queue[At(head, k)] == all[k]
  }

  lemma FirstOfWindow(queue: seq<RID>, head: nat, all: seq<RID>)
    requires |queue| == MAX_ELE_NUM && head < MAX_ELE_NUM && all != [] && Window(queue, head, all)
    ensures queue[head] == all[0] && Window(queue, (head + 1) % MAX_ELE_NUM, all[1..])
  {
    assert At(head, 0) == head;
    forall k | 0 <= k < |all| - 1 ensures queue[At((head + 1) % MAX_ELE_NUM, k)] == all[1..][k] {
      AtNext(head, k);
    }
  }

  lemma LastOfWindow(queue: seq<RID>, head: nat, all: seq<RID>, rid: RID)
    requires |queue| == MAX_ELE_NUM && |all| < MAX_ELE_NUM && Window(queue, head, all)
    ensures Window(queue[At(head, |all|) := rid], head, all + [rid])
  {
    forall k | 0 <= k < |all| ensures At(head, k) != At(head, |all|) {
      AtInjective(head, k, |all|);
    }
  }

  /** The distance count is right exactly when the stretch is not the whole ring. */
  lemma CountBetweenAt(head: nat, k: nat)
    requires head < MAX_ELE_NUM && k <= MAX_ELE_NUM
    ensures CountBetween(head, At(head, k)) == if k == MAX_ELE_NUM then 0 else k
  {
  }

  datatype Op = Enqueue(rid: RID) | Dequeue | Commit | Abort

  /** The contents of the ring and what has been dequeued so far. */
  datatype Ring = Ring(committed: seq<RID>, pending: seq<RID>, out: seq<RID>) {
    function Size(): nat { |committed| + |pending| }
  }

  /** One operation, on the contents. */
  function Apply(r: Ring, op: Op): Ring {
    match op
    case Enqueue(rid) => if r.Size() < MAX_ELE_NUM then r.(pending := r.pending + [rid]) else r
    case Dequeue =>
      if r.committed == [] then r
      else Ring(r.committed[1..], r.pending, r.out + [r.committed[0]])
    case Commit => Ring(if r.Size() == MAX_ELE_NUM then [] else r.committed + r.pending, [], r.out)
    case Abort => r.(pending := [])
  }

  class DeleteQueue {
    const queue: array<RID>
    var head: nat
    var reuse: nat
    var tail: nat
    var size: int
    ghost var committed: seq<RID>
    ghost var pending: seq<RID>
    ghost var out: seq<RID>

    ghost function AsRing(): Ring
      reads this
    {
      Ring(committed, pending, out)
    }

    ghost predicate Valid()
      reads this, queue
    {
      && queue.Length == MAX_ELE_NUM
      && head < MAX_ELE_NUM
      && |committed| < MAX_ELE_NUM && |committed| + |pending| <= MAX_ELE_NUM
      && reuse == At(head, |committed|)
      && tail == At(head, |committed| + |pending|)
      && size == |committed| + |pending|
      && Window(queue[..], head, committed + pending)
    }

    constructor ()
      ensures Valid() && AsRing() == Ring([], [], []) && fresh(queue)
    {
      queue := new RID[MAX_ELE_NUM](_ => 0);
      head, reuse, tail, size := 0, 0, 0, 0;
      committed, pending, out := [], [], [];
    }

    method Enqueue(rid: RID) returns (ok: bool)
      requires Valid()
      modifies this, queue
      ensures Valid() && AsRing() == Apply(old(AsRing()), Op.Enqueue(rid))
      ensures ok <==> old(AsRing()).Size() < MAX_ELE_NUM
    {
      if size >= MAX_ELE_NUM {
        return false;
      }
      LastOfWindow(queue[..], head, committed + pending, rid);
      AtNext(head, |committed| + |pending|);
      queue[tail] := rid;
      tail := (tail + 1) % MAX_ELE_NUM;
      size := size + 1;
      assert committed + (pending + [rid]) == committed + pending + [rid];
      pending := pending + [rid];
      return true;
    }

    method Dequeue() returns (rid: Option<RID>)
      requires Valid()
      modifies this
      ensures Valid() && AsRing() == Apply(old(AsRing()), Op.Dequeue)
      ensures rid.Some? ==> out == old(out) + [rid.value] && old(committed) == [rid.value] + committed
      ensures rid.None? ==> out == old(out) && committed == old(committed) == []
      ensures pending == old(pending)
    {
      if committed != [] { AtInjective(head, 0, |committed|); }
      if head == reuse {
        return None;
      }
      FirstOfWindow(queue[..], head, committed + pending);
      rid := Some(queue[head]);
      var next := (head + 1) % MAX_ELE_NUM;
      ghost var all := committed + pending;
      assert committed[1..] + pending == all[1..];
      AtNext(head, |committed| - 1);
      AtNext(head, |all| - 1);
      head := next;
      size := size - 1;
      committed, out := committed[1..], out + [committed[0]];
    }

    /** Commit: everything pending becomes reusable, except that a ring filled to the last slot
        forgets all it holds. */
    method SetReuse()
      requires Valid()
      modifies this
      ensures Valid() && AsRing() == Apply(old(AsRing()), Op.Commit)
    {
      CountBetweenAt(head, |committed| + |pending|);
      reuse := tail;
      size := CountBetween(head, tail);
      committed, pending := if |committed| + |pending| == MAX_ELE_NUM then [] else committed + pending, [];
    }

    /** Abort: everything pending is dropped. */
    method DiscardPending()
      requires Valid()
      modifies this
      ensures Valid() && AsRing() == Apply(old(AsRing()), Op.Abort)
    {
      CountBetweenAt(head, |committed|);
      tail := reuse;
      size := CountBetween(head, tail);
      pending := [];
    }
  }

  // ------------------------------------------------------------------------------------------
  // Every run
  // ------------------------------------------------------------------------------------------

  function Exec(ops: seq<Op>): (r: Ring) {
    if ops == [] then Ring([], [], []) else Apply(Exec(ops[..|ops| - 1]), ops[|ops| - 1])
  }

  /** What the running transaction has enqueued: read off the operations, without a ring. */
  function Open(ops: seq<Op>): seq<RID> {
    if ops == [] then []
    else
      var before := ops[..|ops| - 1];
      match ops[|ops| - 1]
      case Enqueue(rid) => Open(before) + [rid]
      case Dequeue => Open(before)
      case Commit => []
      case Abort => []
  }

  /** What the dequeues of a run answered, in order: each the oldest RID then committed. */
  function Answers(ops: seq<Op>): seq<RID> {
    if ops == [] then []
    else
      var before := ops[..|ops| - 1];
      Answers(before) +
        if ops[|ops| - 1].Dequeue? && Exec(before).committed != [] then [Exec(before).committed[0]] else []
  }

  lemma {:induction false} AnswersComeOut(ops: seq<Op>)
    ensures Answers(ops) == Exec(ops).out
  {
    if ops != [] { AnswersComeOut(ops[..|ops| - 1]); }
  }

  /** What committed transactions have enqueued, in order. */
  function Closed(ops: seq<Op>): seq<RID> {
    if ops == [] then []
    else
      var before := ops[..|ops| - 1];
      if ops[|ops| - 1] == Commit then Closed(before) + Open(before) else Closed(before)
  }

  /** The running transaction had an enqueue refused. */
  predicate Refused(ops: seq<Op>) {
    if ops == [] then false
    else
      var before := ops[..|ops| - 1];
      match ops[|ops| - 1]
      case Enqueue(_) => Refused(before) || Exec(before).Size() == MAX_ELE_NUM
      case Dequeue => Refused(before)
      case _ => false
  }

  /** Some transaction committed with the ring full or after a refused enqueue. */
  predicate CommittedBadly(ops: seq<Op>) {
    if ops == [] then false
    else
      var before := ops[..|ops| - 1];
      CommittedBadly(before)
      || (ops[|ops| - 1] == Commit && (Exec(before).Size() == MAX_ELE_NUM || Refused(before)))
  }

  lemma {:induction false} ContentsOrLess(ops: seq<Op>)
    ensures Exec(ops).Size() <= MAX_ELE_NUM
    ensures if Refused(ops) then |Exec(ops).pending| < |Open(ops)| else Exec(ops).pending == Open(ops)
    ensures if CommittedBadly(ops) then |Exec(ops).out| + |Exec(ops).committed| < |Closed(ops)|
            else Exec(ops).out + Exec(ops).committed == Closed(ops)
  {
    if ops != [] {
      ContentsOrLess(ops[..|ops| - 1]);
      StepKeepsContents(Exec(ops[..|ops| - 1]), ops[|ops| - 1]);
    }
  }

  /** One operation on a ring: nothing leaves the two sequences but by a dequeue or by a commit of a
      full ring. */
  lemma StepKeepsContents(r: Ring, op: Op)
    ensures var r' := Apply(r, op);
      && (!(op.Commit? && r.Size() == MAX_ELE_NUM) ==>
            r'.out + r'.committed == r.out + r.committed + (if op.Commit? then r.pending else []))
      && |r'.out| + |r'.committed| <= |r.out| + |r.committed| + if op.Commit? then |r.pending| else 0
  {
    if op.Dequeue? && r.committed != [] {
      assert r.committed == [r.committed[0]] + r.committed[1..];
    }
  }

  /** In every run, what the dequeues answered followed by what is still inside is exactly what committed
      transactions enqueued (first in first out, nothing twice, nothing lost, nothing from an aborted
      transaction) if and only if no transaction committed with the ring full or after one of its
      enqueues was refused. */
  lemma NothingIsLostIff(ops: seq<Op>)
    ensures Answers(ops) + Exec(ops).committed == Closed(ops) <==> !CommittedBadly(ops)
  {
    AnswersComeOut(ops);
    ContentsOrLess(ops);
  }

  function EnqueueAll(rids: seq<RID>): seq<Op> {
    if rids == [] then [] else EnqueueAll(rids[..|rids| - 1]) + [Enqueue(rids[|rids| - 1])]
  }

  lemma OneMore(ops: seq<Op>, op: Op)
    ensures Exec(ops + [op]) == Apply(Exec(ops), op)
    ensures Open(ops + [op]) ==
      if op.Enqueue? then Open(ops) + [op.rid] else if op.Dequeue? then Open(ops) else []
    ensures Closed(ops + [op]) == Closed(ops) + if op.Commit? then Open(ops) else []
  {
    var all := ops + [op];
    assert all[..|all| - 1] == ops && all[|all| - 1] == op;
  }

  lemma {:induction false} EnqueueAllPends(rids: seq<RID>)
    requires |rids| <= MAX_ELE_NUM
    ensures Exec(EnqueueAll(rids)) == Ring([], rids, [])
    ensures Open(EnqueueAll(rids)) == rids && Closed(EnqueueAll(rids)) == []
  {
    if rids != [] {
      var n := |rids| - 1;
      EnqueueAllPends(rids[..n]);
      OneMore(EnqueueAll(rids[..n]), Enqueue(rids[n]));
      assert rids == rids[..n] + [rids[n]];
    }
  }

  /** A transaction that fills an empty ring to the last slot and commits: all its RIDs are committed
      by the transaction, and the ring holds none of them. One RID less and it holds them all. */
  lemma FullRingIsForgotten(rids: seq<RID>)
    requires 0 < |rids| <= 1048576
    ensures var ops := EnqueueAll(rids) + [Commit];
      && Closed(ops) == rids && Answers(ops) == []
      && Exec(ops).committed == if |rids| == 1048576 then [] else rids
  {
    EnqueueAllPends(rids);
    OneMore(EnqueueAll(rids), Commit);
    AnswersComeOut(EnqueueAll(rids) + [Commit]);
  }

  ghost predicate NeverFull(ops: seq<Op>) {
    forall n | 0 <= n <= |ops| :: Exec(ops[..n]).Size() < MAX_ELE_NUM
  }

  /** In particular nothing is lost while the ring never fills up. */
  lemma {:induction false} NothingIsLostWhileNeverFull(ops: seq<Op>)
    requires NeverFull(ops)
    ensures !CommittedBadly(ops) && !Refused(ops)
    ensures Answers(ops) + Exec(ops).committed == Closed(ops)
    ensures Exec(ops).pending == Open(ops)
  {
    AnswersComeOut(ops);
    if ops != [] {
      NeverFullBefore(ops);
      NothingIsLostWhileNeverFull(ops[..|ops| - 1]);
    }
    ContentsOrLess(ops);
  }

  lemma NeverFullBefore(ops: seq<Op>)
    requires ops != [] && NeverFull(ops)
    ensures NeverFull(ops[..|ops| - 1]) && Exec(ops[..|ops| - 1]).Size() < MAX_ELE_NUM
  {
    var before := ops[..|ops| - 1];
    forall m | 0 <= m <= |before| ensures Exec(before[..m]).Size() < MAX_ELE_NUM {
      assert before[..m] == ops[..m];
    }
    assert before[..|before|] == before;
  }

  /** `a` is `b` with some elements left out. */
  ghost predicate Subsequence(a: seq<RID>, b: seq<RID>) {
    a == [] ||
    (b != [] &&
     ((a[|a| - 1] == b[|b| - 1] && Subsequence(a[..|a| - 1], b[..|b| - 1])) || Subsequence(a, b[..|b| - 1])))
  }

  lemma {:induction false} SubsequenceAppend(a: seq<RID>, b: seq<RID>, c: seq<RID>, d: seq<RID>)
    requires Subsequence(a, b) && Subsequence(c, d)
    ensures Subsequence(a + c, b + d)
    decreases |d|
  {
    if d == [] {
      assert a + c == a && b + d == b;
    } else {
      var d' := d[..|d| - 1];
      assert (b + d)[..|b + d| - 1] == b + d';
      if c == [] {
        assert a + c == a;
        SubsequenceAppend(a, b, [], d');
        assert a + [] == a;
      } else if c[|c| - 1] == d[|d| - 1] && Subsequence(c[..|c| - 1], d') {
        assert (a + c)[..|a + c| - 1] == a + c[..|c| - 1];
        SubsequenceAppend(a, b, c[..|c| - 1], d');
      } else {
        SubsequenceAppend(a, b, c, d');
      }
    }
  }

  lemma {:induction false} SubsequenceOfPrefix(a: seq<RID>, c: seq<RID>, b: seq<RID>)
    requires Subsequence(a + c, b)
    ensures Subsequence(a, b)
    decreases |b|
  {
    if a != [] {
      var b' := b[..|b| - 1];
      if Subsequence(a + c, b') {
        SubsequenceOfPrefix(a, c, b');
      } else if c == [] {
        assert a + c == a;
      } else {
        assert (a + c)[..|a + c| - 1] == a + c[..|c| - 1];
        SubsequenceOfPrefix(a, c[..|c| - 1], b');
      }
    }
  }

  lemma CommitKeepsOrder(r: Ring, closed: seq<RID>, open: seq<RID>)
    requires Subsequence(r.out + r.committed, closed) && Subsequence(r.pending, open)
    ensures var r' := Apply(r, Commit); Subsequence(r'.out + r'.committed, closed + open)
  {
    if r.Size() == MAX_ELE_NUM {
      SubsequenceOfPrefix(r.out, r.committed, closed);
      SubsequenceAppend(r.out, closed, [], open);
    } else {
      SubsequenceAppend(r.out + r.committed, closed, r.pending, open);
      assert r.out + (r.committed + r.pending) == r.out + r.committed + r.pending;
    }
  }

  lemma EnqueueKeepsOrder(r: Ring, rid: RID, open: seq<RID>)
    requires Subsequence(r.pending, open)
    ensures Subsequence(Apply(r, Enqueue(rid)).pending, open + [rid])
  {
    var one: seq<RID> := [rid];
    assert one[..0] == [] && Subsequence(one, one);
    SubsequenceAppend(r.pending, open, one, one);
    SubsequenceAppend(r.pending, open, [], one);
    assert r.pending + [] == r.pending;
  }

  /** In every run, full ring or not, whatever comes out was enqueued by a committed transaction, in
      order and at most once. */
  lemma {:induction false} OnlyCommittedRidsComeOut(ops: seq<Op>)
    ensures Subsequence(Answers(ops), Closed(ops))
    ensures Subsequence(Exec(ops).out + Exec(ops).committed, Closed(ops))
    ensures Subsequence(Exec(ops).pending, Open(ops))
  {
    if ops != [] {
      var before := ops[..|ops| - 1];
      OnlyCommittedRidsComeOut(before);
      var r, r' := Exec(before), Exec(ops);
      match ops[|ops| - 1]
      case Enqueue(rid) => EnqueueKeepsOrder(r, rid, Open(before));
      case Dequeue => if r.committed != [] { assert r'.out + r'.committed == r.out + r.committed; }
      case Commit => CommitKeepsOrder(r, Closed(before), Open(before));
      case Abort =>
    }
    AnswersComeOut(ops);
    SubsequenceOfPrefix(Exec(ops).out, Exec(ops).committed, Closed(ops));
  }
}
