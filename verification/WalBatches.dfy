/** How a PostgreSQL backend collects the RIDs of the tuples it writes and hands them to the trusted
    server in batches.

    Source: src/integrity_zone/postgresql-patches/pg14-commit-protocol.patch, zeno_wal_rpc.c. */
module WalBatches {
  import opened WalCodec

  const ZENO_WAL_RID_BATCH_SIZE: nat := 4096
  const BATCH: nat := WAL_MATERIALIZE_RID_BATCH_SIZE

  /** One column of a tuple: `kind` is -1 for a type that is not protected. */
  datatype Attribute = Attribute(dropped: bool, kind: int, isNull: bool, rid: nat)

  predicate Logged(a: Attribute) {
    !a.dropped && a.kind >= 0 && !a.isNull
  }

  /** The protected, non-null columns of a tuple in order. */
  function TupleItems(attrs: seq<Attribute>): (items: seq<Item>)
    ensures |items| <= |attrs|
  {
    if attrs == [] then []
    else
      var a := attrs[|attrs| - 1];
      TupleItems(attrs[..|attrs| - 1]) + if Logged(a) then [Item(a.kind, a.rid)] else []
  }

  /** The collecting loop has room for 4096 items. A heap relation of PostgreSQL has at most 1600
      columns, so no tuple fills it; CollectedIff says what the loop does on its own. */
  function Collected(attrs: seq<Attribute>): seq<Item> {
    var items := TupleItems(attrs);
    if |items| <= ZENO_WAL_RID_BATCH_SIZE then items else items[..ZENO_WAL_RID_BATCH_SIZE]
  }

  /** The loop collects every item of a tuple exactly when there are no more than 4096; a tuple of
      at most 4096 columns has no more. */
  lemma CollectedIff(attrs: seq<Attribute>)
    ensures Collected(attrs) == TupleItems(attrs) <==> |TupleItems(attrs)| <= ZENO_WAL_RID_BATCH_SIZE
    ensures |attrs| <= ZENO_WAL_RID_BATCH_SIZE ==> Collected(attrs) == TupleItems(attrs)
  {
  }

  /** The items of a sequence of tuples. */
  function ItemsOf(tuples: seq<seq<Attribute>>): seq<Item> {
    if tuples == [] then [] else ItemsOf(tuples[..|tuples| - 1]) + TupleItems(tuples[|tuples| - 1])
  }

  ghost predicate AllFit(tuples: seq<seq<Attribute>>) {
    forall i | 0 <= i < |tuples| :: |TupleItems(tuples[i])| <= ZENO_WAL_RID_BATCH_SIZE
  }

  lemma {:induction false} TupleItemsPrefix(attrs: seq<Attribute>, n: nat)
    requires n <= |attrs|
    ensures TupleItems(attrs[..n]) <= TupleItems(attrs)
  {
    if n < |attrs| {
      var front := attrs[..|attrs| - 1];
      TupleItemsPrefix(front, n);
      assert front[..n] == attrs[..n];
    } else {
      assert attrs[..n] == attrs;
    }
  }

  /** Column by column: a column that is not dropped, of a protected type and not null gives one item,
      of its type and RID, in the place of the column; any other gives none. */
  lemma ItemOfColumn(attrs: seq<Attribute>, i: nat)
    requires i < |attrs|
    ensures var a, k := attrs[i], |TupleItems(attrs[..i])|;
      if !a.dropped && a.kind >= 0 && !a.isNull
      then
        && |TupleItems(attrs[..i + 1])| == k + 1 <= |TupleItems(attrs)|
        && TupleItems(attrs)[k] == Item(a.kind, a.rid)
      else |TupleItems(attrs[..i + 1])| == k
  {
    assert attrs[..i + 1][..i] == attrs[..i];
    TupleItemsPrefix(attrs, i + 1);
  }

  /** `items` has an item for every protected, non-null column, in order, and no others. */
  ghost predicate ColumnByColumn(attrs: seq<Attribute>, items: seq<Item>) {
    && |items| == |TupleItems(attrs)|
    && forall i | 0 <= i < |attrs| && !attrs[i].dropped && attrs[i].kind >= 0 && !attrs[i].isNull ::
         var k := |TupleItems(attrs[..i])|; k < |items| && items[k] == Item(attrs[i].kind, attrs[i].rid)
  }

  lemma EveryColumn(attrs: seq<Attribute>)
    ensures ColumnByColumn(attrs, TupleItems(attrs))
  {
    forall i | 0 <= i < |attrs| && !attrs[i].dropped && attrs[i].kind >= 0 && !attrs[i].isNull
      ensures var k := |TupleItems(attrs[..i])|;
        k < |TupleItems(attrs)| && TupleItems(attrs)[k] == Item(attrs[i].kind, attrs[i].rid)
    {
      ItemOfColumn(attrs, i);
    }
  }

  /** Tuple by tuple: the items of tuple `j` follow those of the tuples before it. */
  lemma {:induction false} ItemsOfTuple(tuples: seq<seq<Attribute>>, j: nat)
    requires j < |tuples|
    ensures ItemsOf(tuples[..j]) + TupleItems(tuples[j]) <= ItemsOf(tuples)
    decreases |tuples|
  {
    var front := tuples[..|tuples| - 1];
    if j < |front| {
      ItemsOfTuple(front, j);
      assert front[..j] == tuples[..j];
    }
  }

  function Concat(chunks: seq<seq<Item>>): (items: seq<Item>) {
    if chunks == [] then [] else Concat(chunks[..|chunks| - 1]) + chunks[|chunks| - 1]
  }

  lemma ConcatAppend(chunks: seq<seq<Item>>, chunk: seq<Item>)
    ensures Concat(chunks + [chunk]) == Concat(chunks) + chunk
  {
    assert (chunks + [chunk])[..|chunks|] == chunks;
  }

  lemma SplitOff(chunks: seq<seq<Item>>, pending: seq<Item>, n: nat)
    requires n <= |pending|
    ensures Concat(chunks + [pending[..n]]) + pending[n..] == Concat(chunks) + pending
  {
    ConcatAppend(chunks, pending[..n]);
    assert pending == pending[..n] + pending[n..];
  }

  /** Every batch has 3000 items. */
  ghost predicate Full(chunks: seq<seq<Item>>) {
    forall i | 0 <= i < |chunks| :: |chunks[i]| == 3000
  }

  /** Every batch but the last has 3000 items, and the last 1 to 3000. */
  ghost predicate FullButLast(chunks: seq<seq<Item>>) {
    chunks != [] ==>
      Full(chunks[..|chunks| - 1]) && 1 <= |chunks[|chunks| - 1]| <= 3000
  }

  /** The static variables of zeno_wal_rpc.c. A chunk stands for the payload the trusted server
      returned for that batch of items. */
  class Backend {
    var pending: seq<Item>
    var chunks: seq<seq<Item>>

    ghost predicate Valid()
      reads this
    {
      |pending| < BATCH && Full(chunks)
    }

    /** Everything collected and not yet in the log, in order. */
    ghost function Unlogged(): seq<Item>
      reads this
    {
      Concat(chunks) + pending
    }

    constructor ()
      ensures Valid() && Unlogged() == []
    {
      pending, chunks := [], [];
    }

    method CollectItems(attrs: seq<Attribute>) returns (items: seq<Item>)
      ensures items == Collected(attrs)
      ensures |TupleItems(attrs)| <= 4096 ==> ColumnByColumn(attrs, items)
    {
      items := [];
      var i := 0;
      while i < |attrs| && |items| < ZENO_WAL_RID_BATCH_SIZE
        invariant 0 <= i <= |attrs| && |items| <= ZENO_WAL_RID_BATCH_SIZE
        invariant items == TupleItems(attrs[..i])
      {
        assert attrs[..i + 1][..i] == attrs[..i];
        var a := attrs[i];
        if Logged(a) {
          items := items + [Item(a.kind, a.rid)];
        }
        i := i + 1;
      }
      TupleItemsPrefix(attrs, i);
      assert attrs[..|attrs|] == attrs;
      EveryColumn(attrs);
    }

    method MaterializeFullBatches()
      requires Full(chunks)
      modifies this
      ensures Valid() && Unlogged() == old(Unlogged())
    {
      while |pending| >= BATCH
        invariant Full(chunks)
        invariant Unlogged() == old(Unlogged())
      {
        SplitOff(chunks, pending, BATCH);
        chunks := chunks + [pending[..BATCH]];
        pending := pending[BATCH..];
      }
    }

    method AppendTuple(attrs: seq<Attribute>)
      requires Valid()
      modifies this
      ensures Valid() && Unlogged() == old(Unlogged()) + Collected(attrs)
      ensures |TupleItems(attrs)| <= ZENO_WAL_RID_BATCH_SIZE ==> Unlogged() == old(Unlogged()) + TupleItems(attrs)
    {
      CollectedIff(attrs);
      var items := CollectItems(attrs);
      if |items| == 0 {
        return;
      }
      assert Concat(chunks) + (pending + items) == Unlogged() + items;
      pending := pending + items;
      MaterializeFullBatches();
    }

    method MaterializePending()
      requires Valid()
      modifies this
      ensures pending == [] && FullButLast(chunks) && Concat(chunks) == old(Unlogged())
    {
      if |pending| == 0 {
        assert Concat(chunks) + [] == Concat(chunks);
        return;
      }
      ConcatAppend(chunks, pending);
      assert (chunks + [pending])[..|chunks|] == chunks;
      chunks := chunks + [pending];
      pending := [];
    }

    /** Walks the list of payloads, one log message each, and then drops it. */
    method LogPendingPayloads() returns (logged: seq<seq<Item>>)
      requires |pending| < BATCH && FullButLast(chunks)
      modifies this
      ensures Valid() && Concat(logged) == old(Concat(chunks)) && Unlogged() == old(pending) == pending
      ensures FullButLast(logged)
    {
      logged := [];
      var rest := chunks;
      while rest != []
        invariant logged + rest == chunks
        decreases |rest|
      {
        logged := logged + [rest[0]];
        rest := rest[1..];
      }
      assert logged == chunks;
      chunks := [];
    }

    /** RecordTransactionCommit: the batches that go into the log before the commit record. They
        hold exactly what was collected since the last commit, in order, 3000 items each but for the
        last, and nothing stays behind. */
    method Commit() returns (logged: seq<seq<Item>>)
      requires Valid()
      modifies this
      ensures Valid() && Concat(logged) == old(Unlogged()) && Unlogged() == []
      ensures FullButLast(logged)
    {
      MaterializePending();
      logged := LogPendingPayloads();
    }

    /** A transaction: its tuples one after another, then the commit. What goes into the log is what
        was left over from before, and then the items of every tuple, in order. */
    method RunTransaction(tuples: seq<seq<Attribute>>) returns (logged: seq<seq<Item>>)
      requires Valid()
      modifies this
      ensures Valid() && Unlogged() == [] && (AllFit(tuples) ==> Concat(logged) == old(Unlogged()) + ItemsOf(tuples))
      ensures FullButLast(logged)
    {
      var i := 0;
      assert Unlogged() + [] == Unlogged();
      while i < |tuples|
        invariant 0 <= i <= |tuples| && Valid()
        invariant AllFit(tuples) ==> Unlogged() == old(Unlogged()) + ItemsOf(tuples[..i])
      {
        assert tuples[..i + 1][..i] == tuples[..i];
        AppendTuple(tuples[i]);
        i := i + 1;
      }
      assert tuples[..i] == tuples;
      logged := Commit();
    }
  }
}
