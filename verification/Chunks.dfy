/** The row loop of dbgen and the law of chunked generation: a chunk generated by itself is exactly
    its slice of the table generated in one go.

    Sources: benchmark/tpch/dbgen/build.c (what a row draws), rnd.c (row_stop), driver.c (gen_tbl,
    partial, the table loop), text.c (the text pool). A row's text is left to an arbitrary function of
    the streams it reads and of the text pool. */
module Chunks {
  import opened Arith
  import opened Options
  import opened Rng
  import opened Dbgen

  // ------------------------------------------------------------------------------------------
  // What a row draws
  // ------------------------------------------------------------------------------------------

  /** The drawn quantities that decide how often a row draws: the line items of an order, how many
      of them were returned, and the length of an address. */
  datatype Choice = Choice(lines: nat, returned: nat, address: nat)

  type RowChoice = c: Choice | c.lines <= O_LCNT_MAX && c.returned <= c.lines && c.address <= 40
    witness Choice(1, 0, 10)

  /** Draws of mk_order, mk_part, mk_cust and mk_supp from each stream but the text pool's. */
  function OrderDraws(c: RowChoice, s: nat): nat {
    if s == 40 || s == 13 || s == 38 || s == 11 || s == 43 then 1
    else if s == 12 then 2
    else if 14 <= s <= 23 then c.lines
    else if s == 24 then c.returned
    else if s == 25 then 2 * c.lines
    else 0
  }

  function PartDraws(s: nat): nat {
    if s == 37 then 92 else if s <= 4 then 1 else if s == 6 then 2
    else if s == 7 || s == 8 then SUPP_PER_PART else if s == 9 then 2 * SUPP_PER_PART else 0
  }

  /** a_rnd draws the length and then once for every five characters. */
  function AddressDraws(length: nat): nat { 1 + (length + 4) / 5 }

  function CustDraws(c: RowChoice, s: nat): nat {
    if s == 26 then AddressDraws(c.address)
    else if s == 27 || s == 29 || s == 30 then 1 else if s == 28 then 3 else if s == 31 then 2 else 0
  }

  function SuppDraws(c: RowChoice, s: nat): nat {
    if s == 32 then AddressDraws(c.address)
    else if s == 33 || s == 35 || 44 <= s <= 47 then 1 else if s == 34 then 3 else if s == 36 then 2 else 0
  }

  function Draws(t: Table, c: RowChoice, s: nat): nat {
    match t
    case Cust => CustDraws(c, s)
    case Supp => SuppDraws(c, s)
    case Part => PartDraws(s)
    case PSupp => PartDraws(s)
    case PartPSupp => PartDraws(s)
    case _ => OrderDraws(c, s)
  }

  const TEXT_POOL: nat := 5
  const HVAR: nat := 39

  /** The streams row_stop rounds up. The text pool's stream has table NONE, which is also the child
      of a table without one. */
  predicate Padded(t: Table, s: nat) {
    var master := match t case OrderLine => Order case PartPSupp => Part case _ => t;
    || Owner(s) == Some(master)
    || (Child(master).Some? && Owner(s) == Child(master))
    || (Child(master).None? && s == TEXT_POOL)
  }

  /** The streams a printed row of a table is made from: those of the table and of its child, and for
      a line item the order date and the number of lines. */
  predicate Tracked(t: Table, s: nat) {
    || (Padded(t, s) && s != TEXT_POOL && s != HVAR)
    || (t.Line? && LinkCalls(s) == 1)
  }

  ghost predicate AgreeOn(t: Table, v: Values, w: Values) {
    forall s | 0 <= s < STREAMS && Tracked(t, s) :: v[s] == w[s]
  }

  lemma AddressFits(c: RowChoice)
    ensures AddressDraws(c.address) <= 9
  {
  }

  /** A row never draws more from a rounded stream than its boundary, and the boundary is what the
      skip functions count; a shared stream that is not rounded is drawn from just so often. */
  lemma DrawsFit(t: Table, c: RowChoice, s: nat)
    requires s < STREAMS && Tracked(t, s)
    ensures Padded(t, s) ==> Draws(t, c, s) <= Boundary(s) == RowCalls(t, s)
    ensures !Padded(t, s) ==> Draws(t, c, s) == RowCalls(t, s)
  {
    AddressFits(c);
  }

  /** Of the streams that row_stop rounds up, the skip functions miss exactly two: HVAR, which no row
      reads, and the text pool's, which is read once, before the first row of a process is complete. */
  lemma SkippedIffTracked(t: Table, s: nat)
    requires s < STREAMS && Padded(t, s)
    ensures RowCalls(t, s) == Boundary(s) <==> Tracked(t, s)
  {
  }

  /** Every stream a row draws from counts, where the whole row is printed. */
  lemma DrawnIsTracked(t: Table, c: RowChoice, s: nat)
    requires s < STREAMS && t != PSupp && t != Line && Draws(t, c, s) > 0
    ensures Tracked(t, s)
  {
  }

  /** The streams of a printed part supplier are those of its quantity, cost and comment; the streams
      of a printed line item its own twelve, the order date and the number of lines. */
  lemma PrintedIsTracked(s: nat)
    requires s < STREAMS
    ensures Tracked(PSupp, s) <==> s in {7, 8, 9}
    ensures Tracked(Line, s) <==> s in {13, 14, 15, 16, 17, 18, 19, 20, 21, 22, 23, 24, 25, 43}
  {
  }

  /** No boundary is too high: a row with seven returned lines and a long address draws just that
      often, except from O_SUPP_SD, which is skipped and rounded up but never drawn from. */
  lemma BoundaryIsTight(t: Table, s: nat)
    requires s < STREAMS && Tracked(t, s)
    ensures Draws(t, Choice(7, 7, 40), s) == if s == 10 then 0 else RowCalls(t, s)
  {
  }

  /** Tables that can be generated one after another in one process. */
  predicate Independent(t: Table, other: Table) {
    Family(t) != Family(other)
  }

  function Family(t: Table): nat {
    match t
    case Cust => 0
    case Supp => 1
    case Part => 2
    case PSupp => 2
    case PartPSupp => 2
    case _ => 3
  }

  /** The streams of all independent tables are as they were. */
  ghost predicate OthersAgree(t: Table, v: Values, w: Values) {
    forall other | Independent(t, other) :: AgreeOn(other, v, w)
  }

  lemma OthersAgreeOn(t: Table, u: Values, v: Values, w: Values)
    requires OthersAgree(t, u, v) && OthersAgree(t, v, w)
    ensures OthersAgree(t, u, w)
  {
    forall other | Independent(t, other) ensures AgreeOn(other, u, w) {
      assert AgreeOn(other, u, v) && AgreeOn(other, v, w);
    }
  }

  lemma OtherTablesKeep(t: Table, other: Table, c: RowChoice, s: nat)
    requires s < STREAMS && Independent(t, other) && Tracked(other, s)
    ensures !Padded(t, s) && Draws(t, c, s) == 0 && RowCalls(t, s) == 0 && s != TEXT_POOL
  {
  }

  // ------------------------------------------------------------------------------------------
  // A table generated in one go
  // ------------------------------------------------------------------------------------------

  /** What dbg_text does on its first call: the pool it builds and how often it draws, both decided
      by where the text pool's stream stands. */
  datatype TextMaker<!Pool> = TextMaker(build: nat -> Pool, draws: nat -> nat)

  /** What a row shows and what it draws, as functions of the row number, the streams and the pool. */
  datatype RowMaker<!Row, !Pool> = RowMaker(row: (nat, Values, Pool) -> Row, choice: (nat, Values) -> RowChoice)

  /** All that a process keeps from row to row: the streams, and the text pool once it is built. */
  datatype Process<Pool> = Process(streams: Values, text: Option<Pool>)

  /** The pool the next row of the process cuts its comments from. */
  function PoolOf<Pool>(tx: TextMaker<Pool>, g: Process<Pool>): Pool {
    if g.text.Some? then g.text.value else tx.build(g.streams[TEXT_POOL])
  }

  ghost predicate ReadsTracked<Row(!new), Pool(!new)>(t: Table, mk: RowMaker<Row, Pool>) {
    forall i: nat, v: Values, w: Values, p: Pool :: AgreeOn(t, v, w) ==> mk.row(i, v, p) == mk.row(i, w, p)
  }

  function Usage<Row, Pool>(t: Table, tx: TextMaker<Pool>, mk: RowMaker<Row, Pool>, i: nat, g: Process<Pool>, s: nat)
    : nat
  {
    if s != TEXT_POOL then Draws(t, mk.choice(i, g.streams), s)
    else if g.text.Some? then 0
    else tx.draws(g.streams[TEXT_POOL])
  }

  function UsageOf<Row, Pool>(t: Table, tx: TextMaker<Pool>, mk: RowMaker<Row, Pool>, i: nat, g: Process<Pool>)
    : (u: seq<nat>)
    ensures |u| == STREAMS
  {
    seq(STREAMS, s requires 0 <= s < STREAMS => Usage(t, tx, mk, i, g, s))
  }

  function Drawn(used: seq<nat>, v: Values): Values
    requires |used| == STREAMS
  {
    seq(STREAMS, s requires 0 <= s < STREAMS => Iterate(v[s], used[s]))
  }

  function PaddedUp(t: Table, used: seq<nat>, v: Values): Values
    requires |used| == STREAMS
  {
    seq(STREAMS, s requires 0 <= s < STREAMS =>
      if Padded(t, s) && used[s] <= Boundary(s) then Iterate(v[s], Boundary(s) - used[s]) else v[s])
  }

  function AfterRow<Row, Pool>(t: Table, tx: TextMaker<Pool>, mk: RowMaker<Row, Pool>, i: nat, g: Process<Pool>)
    : Process<Pool>
  {
    var used := UsageOf(t, tx, mk, i, g);
    Process(PaddedUp(t, used, Drawn(used, g.streams)), Some(PoolOf(tx, g)))
  }

  /** The rows numbered from `start` of one run of gen_tbl. */
  function Rows<Row, Pool>(
    t: Table, tx: TextMaker<Pool>, mk: RowMaker<Row, Pool>, start: nat, count: nat, g: Process<Pool>): seq<Row>
    decreases count
  {
    if count == 0 then []
    else
      [mk.row(start, g.streams, PoolOf(tx, g))]
      + Rows(t, tx, mk, start + 1, count - 1, AfterRow(t, tx, mk, start, g))
  }

  lemma RowAdvances<Row, Pool>(
    t: Table, tx: TextMaker<Pool>, mk: RowMaker<Row, Pool>, i: nat, g: Process<Pool>, s: nat)
    requires s < STREAMS && Tracked(t, s)
    ensures AfterRow(t, tx, mk, i, g).streams[s] == Iterate(g.streams[s], RowCalls(t, s))
  {
    var used := Usage(t, tx, mk, i, g, s);
    DrawsFit(t, mk.choice(i, g.streams), s);
    if Padded(t, s) {
      IterateAdds(g.streams[s], used, Boundary(s) - used);
    }
  }

  /** The streams of a table at the start of its row number `n`, counted from 0. */
  function Position(t: Table, v: Values, n: nat): Values {
    seq(STREAMS, s requires 0 <= s < STREAMS => OverRows(v[s], RowCalls(t, s), n))
  }

  lemma IterateRows(x: nat, calls: nat, m: nat, n: nat)
    ensures OverRows(OverRows(x, calls, m), calls, n) == OverRows(x, calls, m + n)
  {
    IterateAdds(x, calls * m, calls * n);
    assert calls * (m + n) == calls * m + calls * n;
  }

  lemma PositionStepAt<Row, Pool>(
    t: Table, tx: TextMaker<Pool>, mk: RowMaker<Row, Pool>, i: nat, g: Process<Pool>, n: nat, s: nat)
    requires s < STREAMS && Tracked(t, s)
    ensures OverRows(g.streams[s], RowCalls(t, s), n + 1)
         == OverRows(AfterRow(t, tx, mk, i, g).streams[s], RowCalls(t, s), n)
  {
    var calls, x := RowCalls(t, s), g.streams[s];
    RowAdvances(t, tx, mk, i, g, s);
    IterateRows(x, calls, 1, n);
    assert OverRows(x, calls, 1) == Iterate(x, calls) && 1 + n == n + 1;
  }

  lemma PositionStep<Row, Pool>(
    t: Table, tx: TextMaker<Pool>, mk: RowMaker<Row, Pool>, i: nat, g: Process<Pool>, n: nat)
    ensures AgreeOn(t, Position(t, g.streams, n + 1), Position(t, AfterRow(t, tx, mk, i, g).streams, n))
  {
    var v, next := g.streams, AfterRow(t, tx, mk, i, g).streams;
    forall s | 0 <= s < STREAMS && Tracked(t, s) ensures Position(t, v, n + 1)[s] == Position(t, next, n)[s] {
      PositionStepAt(t, tx, mk, i, g, n, s);
    }
  }

  /** Row `k` of a run is made from the streams moved over `k` rows and from the pool of its process,
      whatever the rows before it drew. */
  lemma {:induction false} RowsAt<Row(!new), Pool(!new)>(
    t: Table, tx: TextMaker<Pool>, mk: RowMaker<Row, Pool>, start: nat, count: nat, g: Process<Pool>, k: nat)
    requires ReadsTracked(t, mk) && k < count
    ensures |Rows(t, tx, mk, start, count, g)| == count
    ensures Rows(t, tx, mk, start, count, g)[k] == mk.row(start + k, Position(t, g.streams, k), PoolOf(tx, g))
    decreases count
  {
    var next := AfterRow(t, tx, mk, start, g);
    RowsLength(t, tx, mk, start, count, g);
    if k == 0 {
      assert AgreeOn(t, g.streams, Position(t, g.streams, 0));
    } else {
      RowsAt(t, tx, mk, start + 1, count - 1, next, k - 1);
      PositionStep(t, tx, mk, start, g, k - 1);
    }
  }

  lemma {:induction false} RowsLength<Row, Pool>(
    t: Table, tx: TextMaker<Pool>, mk: RowMaker<Row, Pool>, start: nat, count: nat, g: Process<Pool>)
    ensures |Rows(t, tx, mk, start, count, g)| == count
    decreases count
  {
    if count > 0 { RowsLength(t, tx, mk, start + 1, count - 1, AfterRow(t, tx, mk, start, g)); }
  }

  /** Skipping a stream over `from` rows and then generating is generating and then cutting. */
  lemma ChunkIsSlice<Row(!new), Pool(!new)>(
    t: Table, tx: TextMaker<Pool>, mk: RowMaker<Row, Pool>, g: Process<Pool>, h: Process<Pool>,
    total: nat, from: nat, count: nat)
    requires ReadsTracked(t, mk) && from + count <= total
    requires AgreeOn(t, h.streams, Position(t, g.streams, from)) && PoolOf(tx, h) == PoolOf(tx, g)
    ensures |Rows(t, tx, mk, 1, total, g)| == total
    ensures Rows(t, tx, mk, 1 + from, count, h) == Rows(t, tx, mk, 1, total, g)[from..from + count]
  {
    RowsLength(t, tx, mk, 1, total, g);
    RowsLength(t, tx, mk, 1 + from, count, h);
    var chunk, slice := Rows(t, tx, mk, 1 + from, count, h), Rows(t, tx, mk, 1, total, g)[from..from + count];
    forall k | 0 <= k < count ensures chunk[k] == slice[k] {
      RowsAt(t, tx, mk, 1 + from, count, h, k);
      RowsAt(t, tx, mk, 1, total, g, from + k);
      PositionsMeet(t, g.streams, h.streams, from, k);
    }
  }

  lemma PositionsMeet(t: Table, v: Values, w: Values, from: nat, k: nat)
    requires AgreeOn(t, w, Position(t, v, from))
    ensures AgreeOn(t, Position(t, w, k), Position(t, v, from + k))
  {
    forall s | 0 <= s < STREAMS && Tracked(t, s) ensures Position(t, w, k)[s] == Position(t, v, from + k)[s] {
      IterateRows(v[s], RowCalls(t, s), from, k);
    }
  }

  // ------------------------------------------------------------------------------------------
  // The generator
  // ------------------------------------------------------------------------------------------

  /** The static variables of dbg_text. */
  class TextPool<Pool> {
    var text: Option<Pool>

    constructor ()
      ensures text == None
    {
      text := None;
    }

    /** The pool, built on the first call from the position the text pool's stream has then. */
    method Preload(tx: TextMaker<Pool>, position: nat) returns (pool: Pool)
      modifies this
      ensures pool == (if old(text).Some? then old(text).value else tx.build(position)) && text == Some(pool)
    {
      if text.None? {
        text := Some(tx.build(position));
      }
      pool := text.value;
    }
  }

  /** row_stop: rounds the streams of the table and of its child up to their boundaries. */
  method RowStop(seeds: Seeds, t: Table, used: seq<nat>)
    requires |used| == STREAMS
    modifies seeds
    ensures seeds.value == PaddedUp(t, used, old(seeds.value))
  {
    ghost var start := seeds.value;
    ghost var goal := PaddedUp(t, used, start);
    var i := 0;
    while i < STREAMS
      invariant 0 <= i <= STREAMS
      invariant forall s | 0 <= s < STREAMS :: seeds.value[s] == if s < i then goal[s] else start[s]
    {
      if Padded(t, i) && used[i] <= Boundary(i) {
        seeds.AdvanceStream(i, Boundary(i) - used[i]);
      }
      i := i + 1;
    }
  }

  method GenTbl<Row, Pool>(
    seeds: Seeds, pool: TextPool<Pool>, t: Table, tx: TextMaker<Pool>, mk: RowMaker<Row, Pool>, start: nat, count: nat)
    returns (rows: seq<Row>)
    modifies seeds, pool
    ensures rows == Rows(t, tx, mk, start, count, old(Process(seeds.value, pool.text)))
    ensures PoolOf(tx, Process(seeds.value, pool.text)) == PoolOf(tx, old(Process(seeds.value, pool.text)))
    ensures OthersAgree(t, old(seeds.value), seeds.value)
  {
    rows := [];
    ghost var g := Process(seeds.value, pool.text);
    ghost var goal := Rows(t, tx, mk, start, count, g);
    var i: nat, left: nat := start, count;
    while left > 0
      invariant rows + Rows(t, tx, mk, i, left, Process(seeds.value, pool.text)) == goal
      invariant PoolOf(tx, Process(seeds.value, pool.text)) == PoolOf(tx, g)
      invariant OthersAgree(t, g.streams, seeds.value)
    {
      ghost var before := Process(seeds.value, pool.text);
      RowsStep(rows, t, tx, mk, i, left, before);
      var used := UsageOf(t, tx, mk, i, Process(seeds.value, pool.text));
      var p := pool.Preload(tx, seeds.value[TEXT_POOL]);
      rows := rows + [mk.row(i, seeds.value, p)];
      seeds.value := Drawn(used, seeds.value);
      RowStop(seeds, t, used);
      assert Process(seeds.value, pool.text) == AfterRow(t, tx, mk, i, before);
      OthersKeepRow(t, tx, mk, i, before);
      OthersAgreeOn(t, g.streams, before.streams, seeds.value);
      i, left := i + 1, left - 1;
    }
    assert rows + [] == rows;
  }

  lemma RowsStep<Row, Pool>(
    done: seq<Row>, t: Table, tx: TextMaker<Pool>, mk: RowMaker<Row, Pool>, i: nat, left: nat, g: Process<Pool>)
    requires left > 0
    ensures done + Rows(t, tx, mk, i, left, g)
         == done + [mk.row(i, g.streams, PoolOf(tx, g))]
            + Rows(t, tx, mk, i + 1, left - 1, AfterRow(t, tx, mk, i, g))
  {
    var row, rest := mk.row(i, g.streams, PoolOf(tx, g)), Rows(t, tx, mk, i + 1, left - 1, AfterRow(t, tx, mk, i, g));
    assert done + ([row] + rest) == done + [row] + rest;
  }

  lemma OthersKeepRow<Row, Pool>(
    t: Table, tx: TextMaker<Pool>, mk: RowMaker<Row, Pool>, i: nat, g: Process<Pool>)
    ensures OthersAgree(t, g.streams, AfterRow(t, tx, mk, i, g).streams)
  {
    var v, w := g.streams, AfterRow(t, tx, mk, i, g).streams;
    forall other | Independent(t, other) ensures AgreeOn(other, v, w) {
      forall s | 0 <= s < STREAMS && Tracked(other, s) ensures v[s] == w[s] {
        OtherTablesKeep(t, other, mk.choice(i, v), s);
      }
    }
  }

  lemma OthersKeepSkip(t: Table, v: Values, w: Values, n: nat)
    requires Advanced(v, w, PerRow(t), n)
    ensures OthersAgree(t, v, w)
  {
    forall other | Independent(t, other) ensures AgreeOn(other, v, w) {
      forall s | 0 <= s < STREAMS && Tracked(other, s) ensures v[s] == w[s] {
        OtherTablesKeep(t, other, Choice(1, 0, 10), s);
        NotSkipped(v[s], PerRow(t)(s), n);
      }
    }
  }

  lemma NotSkipped(x: nat, calls: nat, n: nat)
    requires calls == 0
    ensures Iterate(x, calls * n) == x
  {
  }

  /** Skipping rows never moves the text pool's stream, so a chunk builds the pool of the serial run. */
  lemma PoolKeepsSkip<Pool>(tx: TextMaker<Pool>, t: Table, v: Values, w: Values, n: nat, text: Option<Pool>)
    requires Advanced(v, w, PerRow(t), n)
    ensures w[TEXT_POOL] == v[TEXT_POOL]
    ensures PoolOf(tx, Process(w, text)) == PoolOf(tx, Process(v, text))
  {
    assert RowCalls(t, TEXT_POOL) == 0;
    NotSkipped(v[TEXT_POOL], PerRow(t)(TEXT_POOL), n);
  }

  /** The first row of a chunk, counted from 0, and the end of it: the last chunk takes what is left. */
  function ChunkStart(total: nat, procs: nat, step: nat): nat
    requires 0 < step <= procs
  {
    (step - 1) * (total / procs)
  }

  function ChunkEnd(total: nat, procs: nat, step: nat): nat
    requires 0 < step <= procs
  {
    if step == procs then total else step * (total / procs)
  }

  lemma ChunkBounds(total: nat, procs: nat, step: nat)
    requires 0 < step <= procs
    ensures ChunkStart(total, procs, step) <= ChunkEnd(total, procs, step) <= total
    ensures ChunkEnd(total, procs, step) - ChunkStart(total, procs, step)
         == total / procs + if step == procs then total % procs else 0
    ensures ChunkStart(total, procs, step) == (total / procs) * (step - 1)
  {
    var size := total / procs;
    assert step * size == (step - 1) * size + size;
    assert total == procs * size + total % procs;
    MulMonotone(step, procs, size);
    MulComm(step - 1, size);
  }

  lemma MulMonotone(a: nat, b: nat, c: nat)
    requires a <= b
    ensures a * c <= b * c
  {
    assert b * c == a * c + (b - a) * c;
  }

  /** One chunk of a table. */
  function ChunkOf<Row>(table: seq<Row>, procs: nat, step: nat): seq<Row>
    requires 0 < step <= procs
  {
    ChunkBounds(|table|, procs, step);
    table[ChunkStart(|table|, procs, step)..ChunkEnd(|table|, procs, step)]
  }

  lemma SkippedTo(t: Table, v: Values, w: Values, serial: Values, from: nat)
    requires Advanced(v, w, PerRow(t), from) && AgreeOn(t, v, serial)
    ensures AgreeOn(t, w, Position(t, serial, from))
  {
  }

  /** Two processes are at one with each other on a table: its streams and the pool. */
  ghost predicate SameFor<Pool>(t: Table, tx: TextMaker<Pool>, g: Process<Pool>, h: Process<Pool>) {
    AgreeOn(t, g.streams, h.streams) && PoolOf(tx, g) == PoolOf(tx, h)
  }

  lemma SkippedSlice<Row(!new), Pool(!new)>(
    t: Table, tx: TextMaker<Pool>, mk: RowMaker<Row, Pool>, g: Process<Pool>, w: Values, serial: Process<Pool>,
    total: nat, from: nat, count: nat)
    requires ReadsTracked(t, mk) && SameFor(t, tx, g, serial) && Advanced(g.streams, w, PerRow(t), from)
    requires from + count <= total
    ensures |Rows(t, tx, mk, 1, total, serial)| == total
    ensures Rows(t, tx, mk, 1 + from, count, Process(w, g.text))
         == Rows(t, tx, mk, 1, total, serial)[from..from + count]
  {
    SkippedTo(t, g.streams, w, serial.streams, from);
    PoolKeepsSkip(tx, t, g.streams, w, from, g.text);
    ChunkIsSlice(t, tx, mk, serial, Process(w, g.text), total, from, count);
  }

  /** Streams skipped over the earlier chunks give the chunk. */
  lemma SkippedChunk<Row(!new), Pool(!new)>(
    t: Table, tx: TextMaker<Pool>, mk: RowMaker<Row, Pool>, g: Process<Pool>, w: Values, serial: Process<Pool>,
    total: nat, procs: nat, step: nat, from: nat, count: nat)
    requires ReadsTracked(t, mk) && SameFor(t, tx, g, serial) && Advanced(g.streams, w, PerRow(t), from)
    requires 0 < step <= procs
    requires from == ChunkStart(total, procs, step) && from + count == ChunkEnd(total, procs, step)
    ensures Rows(t, tx, mk, 1 + from, count, Process(w, g.text))
         == ChunkOf(Rows(t, tx, mk, 1, total, serial), procs, step)
  {
    RowsLength(t, tx, mk, 1, total, serial);
    ChunkBounds(total, procs, step);
    SkippedSlice(t, tx, mk, g, w, serial, total, from, count);
  }

  lemma SkippedProcess<Row(!new), Pool(!new)>(
    t: Table, tx: TextMaker<Pool>, mk: RowMaker<Row, Pool>, g: Process<Pool>, w: Values, serial: Process<Pool>,
    total: nat, procs: nat, step: nat, from: nat, count: nat)
    requires ReadsTracked(t, mk) && SameFor(t, tx, g, serial) && Advanced(g.streams, w, PerRow(t), from)
    requires 0 < step <= procs
    requires from == ChunkStart(total, procs, step) && from + count == ChunkEnd(total, procs, step)
    ensures Rows(t, tx, mk, 1 + from, count, Process(w, g.text))
         == ChunkOf(Rows(t, tx, mk, 1, total, serial), procs, step)
    ensures PoolOf(tx, Process(w, g.text)) == PoolOf(tx, serial) && OthersAgree(t, g.streams, w)
  {
    SkippedChunk(t, tx, mk, g, w, serial, total, procs, step, from, count);
    PoolKeepsSkip(tx, t, g.streams, w, from, g.text);
    OthersKeepSkip(t, g.streams, w, from);
  }

  /** partial: generates one chunk, in a process that is at one on the table with a run that generates
      the whole table. */
  method Partial<Row(!new), Pool(!new)>(
    seeds: Seeds, pool: TextPool<Pool>, t: Table, tx: TextMaker<Pool>, mk: RowMaker<Row, Pool>,
    base: nat, scale: nat, children: nat, step: nat, ghost serial: Process<Pool>)
    returns (rows: seq<Row>)
    requires ReadsTracked(t, mk) && scale > 0 && 0 < step <= children
    requires SameFor(t, tx, Process(seeds.value, pool.text), serial)
    modifies seeds, pool
    ensures rows == ChunkOf(Rows(t, tx, mk, 1, base * scale, serial), children, step)
    ensures PoolOf(tx, Process(seeds.value, pool.text)) == PoolOf(tx, serial)
    ensures OthersAgree(t, old(seeds.value), seeds.value)
  {
    ghost var g, total := Process(seeds.value, pool.text), base * scale;
    var rowcnt, extra := seeds.SetState(t, base, scale, children, step);
    var start, count := rowcnt * (step - 1) + 1, if step == children then rowcnt + extra else rowcnt;
    ghost var from := ChunkStart(total, children, step);
    assert start == 1 + from && from + count == ChunkEnd(total, children, step) by {
      ChunkBounds(total, children, step);
    }
    SkippedProcess(t, tx, mk, g, seeds.value, serial, total, children, step, from, count);
    ghost var skipped := seeds.value;
    rows := GenTbl(seeds, pool, t, tx, mk, start, count);
    OthersAgreeOn(t, g.streams, skipped, seeds.value);
  }

  datatype Job<!Row, !Pool> = Job(t: Table, mk: RowMaker<Row, Pool>, base: nat)

  /** Jobs a run of dbgen can take on together: no two of one table family. */
  ghost predicate GoodJobs<Row(!new), Pool(!new)>(jobs: seq<Job<Row, Pool>>) {
    && (forall j | 0 <= j < |jobs| :: ReadsTracked(jobs[j].t, jobs[j].mk))
    && (forall j, k | 0 <= j < k < |jobs| :: Independent(jobs[j].t, jobs[k].t))
  }

  /** The whole table of a job, as a process that has generated nothing yet would make it. */
  ghost function WholeTable<Row, Pool>(job: Job<Row, Pool>, tx: TextMaker<Pool>, scale: nat, initial: Values)
    : seq<Row>
  {
    Rows(job.t, tx, job.mk, 1, job.base * scale, Process(initial, None))
  }

  /** One turn of the table loop: a chunk, or the whole table when there is only one. */
  method LoadTable<Row(!new), Pool(!new)>(
    seeds: Seeds, pool: TextPool<Pool>, job: Job<Row, Pool>, tx: TextMaker<Pool>, scale: nat, children: nat, step: nat,
    ghost initial: Values)
    returns (rows: seq<Row>)
    requires ReadsTracked(job.t, job.mk) && scale > 0 && 0 < step <= children
    requires SameFor(job.t, tx, Process(seeds.value, pool.text), Process(initial, None))
    modifies seeds, pool
    ensures rows == ChunkOf(WholeTable(job, tx, scale, initial), children, step)
    ensures PoolOf(tx, Process(seeds.value, pool.text)) == PoolOf(tx, Process(initial, None))
    ensures OthersAgree(job.t, old(seeds.value), seeds.value)
  {
    if children > 1 {
      rows := Partial(seeds, pool, job.t, tx, job.mk, job.base, scale, children, step, Process(initial, None));
    } else {
      OneChunk(job.t, tx, job.mk, job.base * scale, Process(seeds.value, pool.text), Process(initial, None));
      rows := GenTbl(seeds, pool, job.t, tx, job.mk, 1, job.base * scale);
    }
  }

  /** The streams of the jobs from `i` on are where they were at first. */
  ghost predicate Untouched<Row, Pool>(jobs: seq<Job<Row, Pool>>, i: nat, v: Values, initial: Values) {
    forall j | i <= j < |jobs| :: AgreeOn(jobs[j].t, v, initial)
  }

  lemma StillUntouched<Row(!new), Pool(!new)>(
    jobs: seq<Job<Row, Pool>>, i: nat, v: Values, w: Values, initial: Values)
    requires GoodJobs(jobs) && i < |jobs| && Untouched(jobs, i, v, initial) && OthersAgree(jobs[i].t, v, w)
    ensures Untouched(jobs, i + 1, w, initial)
  {
    forall j | i + 1 <= j < |jobs| ensures AgreeOn(jobs[j].t, w, initial) {
      assert Independent(jobs[i].t, jobs[j].t);
      assert AgreeOn(jobs[j].t, v, w) && AgreeOn(jobs[j].t, v, initial);
    }
  }

  /** The table loop of a dbgen process: whatever tables it generates before, each file is exactly the
      chunk of its table. */
  method Load<Row(!new), Pool(!new)>(
    jobs: seq<Job<Row, Pool>>, tx: TextMaker<Pool>, scale: nat, children: nat, step: nat, initial: Values)
    returns (files: seq<seq<Row>>)
    requires GoodJobs(jobs) && scale > 0 && 0 < step <= children
    ensures |files| == |jobs|
    ensures forall j | 0 <= j < |jobs| :: files[j] == ChunkOf(WholeTable(jobs[j], tx, scale, initial), children, step)
  {
    var seeds := new Seeds(initial);
    var pool := new TextPool<Pool>();
    files := [];
    var i := 0;
    while i < |jobs|
      invariant 0 <= i <= |jobs| && |files| == i
      invariant forall j | 0 <= j < i :: files[j] == ChunkOf(WholeTable(jobs[j], tx, scale, initial), children, step)
      invariant Untouched(jobs, i, seeds.value, initial)
      invariant PoolOf(tx, Process(seeds.value, pool.text)) == PoolOf(tx, Process(initial, None))
    {
      ghost var before := seeds.value;
      assert AgreeOn(jobs[i].t, seeds.value, initial);
      var rows := LoadTable(seeds, pool, jobs[i], tx, scale, children, step, initial);
      StillUntouched(jobs, i, before, seeds.value, initial);
      files := files + [rows];
      i := i + 1;
    }
  }

  /** A table in one chunk is the whole table. */
  lemma OneChunk<Row(!new), Pool(!new)>(
    t: Table, tx: TextMaker<Pool>, mk: RowMaker<Row, Pool>, total: nat, g: Process<Pool>, serial: Process<Pool>)
    requires ReadsTracked(t, mk) && SameFor(t, tx, g, serial)
    ensures Rows(t, tx, mk, 1, total, g) == ChunkOf(Rows(t, tx, mk, 1, total, serial), 1, 1)
  {
    assert ChunkStart(total, 1, 1) == 0;
    AdvancedByNone(g.streams, PerRow(t));
    SkippedChunk(t, tx, mk, g, g.streams, serial, total, 1, 1, 0, total);
  }

  /** Chunks 1 to `step` of a table, put together. */
  ghost function FirstChunks<Row>(table: seq<Row>, procs: nat, step: nat): seq<Row>
    requires step <= procs
  {
    if step == 0 then [] else FirstChunks(table, procs, step - 1) + ChunkOf(table, procs, step)
  }

  lemma {:induction false} FirstChunksAre<Row>(table: seq<Row>, procs: nat, step: nat)
    requires 0 < step <= procs
    ensures ChunkEnd(|table|, procs, step) <= |table|
    ensures FirstChunks(table, procs, step) == table[..ChunkEnd(|table|, procs, step)]
  {
    ChunkBounds(|table|, procs, step);
    if step > 1 {
      FirstChunksAre(table, procs, step - 1);
    } else {
      assert ChunkStart(|table|, procs, 1) == 0;
    }
  }

  /** Every chunk of every table generated by a process of its own: for each table the files of the
      chunks, put together, are the file of a single process that generates everything in one go. */
  method Chunked<Row(!new), Pool(!new)>(
    jobs: seq<Job<Row, Pool>>, tx: TextMaker<Pool>, scale: nat, children: nat, initial: Values)
    returns (serial: seq<seq<Row>>, chunks: seq<seq<seq<Row>>>)
    requires GoodJobs(jobs) && scale > 0 && children > 0
    ensures |serial| == |jobs| && |chunks| == children && forall c | 0 <= c < children :: |chunks[c]| == |jobs|
    ensures forall j | 0 <= j < |jobs| :: serial[j] == Column(chunks, j)
  {
    serial := Load(jobs, tx, scale, 1, 1, initial);
    chunks := [];
    while |chunks| < children
      invariant |chunks| <= children && forall c | 0 <= c < |chunks| :: |chunks[c]| == |jobs|
      invariant forall j | 0 <= j < |jobs| ::
        Column(chunks, j) == FirstChunks(WholeTable(jobs[j], tx, scale, initial), children, |chunks|)
    {
      var files := Load(jobs, tx, scale, children, |chunks| + 1, initial);
      assert (chunks + [files])[..|chunks|] == chunks;
      chunks := chunks + [files];
    }
    forall j | 0 <= j < |jobs| ensures serial[j] == Column(chunks, j) {
      FirstChunksAre(WholeTable(jobs[j], tx, scale, initial), children, children);
      FirstChunksAre(WholeTable(jobs[j], tx, scale, initial), 1, 1);
    }
  }

  /** The files of one table, chunk after chunk. */
  function Column<Row>(chunks: seq<seq<seq<Row>>>, j: nat): seq<Row>
    requires forall c | 0 <= c < |chunks| :: j < |chunks[c]|
  {
    if chunks == [] then [] else Column(chunks[..|chunks| - 1], j) + chunks[|chunks| - 1][j]
  }
}
