/** Generating a TPC-H table in chunks: each chunk skips every random stream over the rows of the
    chunks before it, and the row loop pads each stream to a fixed number of calls per row.

    Sources: benchmark/tpch/dbgen/rnd.h and rnd.c (streams, row_start, row_stop), speed_seed.c (the
    skip functions), bm_utils.c (set_state), driver.c (tdefs, gen_tbl, partial); all for a scale
    below 30000, where every draw uses the 32-bit generator. */
module Dbgen {
  import opened Options
  import opened Rng

  const STREAMS: nat := 48
  const O_LCNT_MAX: nat := 7
  const SUPP_PER_PART: nat := 4

  datatype Table = Part | PSupp | Supp | Cust | Order | Line | OrderLine | PartPSupp

  /** tdefs[t].child */
  function Child(t: Table): Option<Table> {
    match t
    case Part => Some(PSupp)
    case PartPSupp => Some(PSupp)
    case Order => Some(Line)
    case OrderLine => Some(Line)
    case _ => None
  }

  // ------------------------------------------------------------------------------------------
  // The Seed table
  // ------------------------------------------------------------------------------------------

  /** The table of a stream; the text pool, NATION and REGION streams belong to none of the
      chunked tables. */
  function Owner(s: nat): Option<Table> {
    if s <= 4 || s == 6 || s == 37 then Some(Part)
    else if 7 <= s <= 9 then Some(PSupp)
    else if 10 <= s <= 13 || s == 38 || s == 40 || s == 43 then Some(Order)
    else if 14 <= s <= 25 || s == 39 then Some(Line)
    else if 26 <= s <= 31 then Some(Cust)
    else if 32 <= s <= 36 || 44 <= s <= 47 then Some(Supp)
    else None
  }

  /** The number of calls a row is rounded up to. */
  function Boundary(s: nat): nat {
    if s == 6 || s == 12 || s == 31 || s == 36 || s == 41 || s == 42 then 2
    else if s == 7 || s == 8 then SUPP_PER_PART
    else if s == 9 then SUPP_PER_PART * 2
    else if 14 <= s <= 24 then O_LCNT_MAX
    else if s == 25 then O_LCNT_MAX * 2
    else if s == 26 || s == 32 then 9
    else if s == 28 || s == 34 then 3
    else if s == 37 then 92
    else 1
  }

  // ------------------------------------------------------------------------------------------
  // The skip functions
  // ------------------------------------------------------------------------------------------

  type Values = v: seq<nat> | |v| == STREAMS && forall s | 0 <= s < STREAMS :: v[s] < MODULUS
    witness seq(STREAMS, _ => 0)

  /** Calls per skipped row of each stream, function by function. */
  function PartCalls(s: nat): nat { if s <= 4 then 1 else if s == 6 then 2 else if s == 37 then 92 else 0 }

  function PSuppCalls(s: nat): nat { if s == 7 || s == 8 then 4 else if s == 9 then 8 else 0 }

  function SuppCalls(s: nat): nat {
    if s == 34 then 3 else if s == 32 then 9 else if s == 36 then 2
    else if s == 33 || s == 35 || 44 <= s <= 47 then 1 else 0
  }

  function CustCalls(s: nat): nat {
    if s == 26 then 9 else if s == 31 then 2 else if s == 28 then 3
    else if s == 27 || s == 29 || s == 30 then 1 else 0
  }

  function OrderCalls(s: nat): nat {
    if s == 12 then 2 else if s == 10 || s == 11 || s == 13 || s == 38 || s == 40 || s == 43 then 1 else 0
  }

  function LineCalls(s: nat): nat { if 14 <= s <= 24 then 7 else if s == 25 then 14 else 0 }

  /** sd_line with child == 1 also skips the two streams shared with the order. */
  function LinkedLineCalls(s: nat): nat { LineCalls(s) + LinkCalls(s) }

  function LinkCalls(s: nat): nat { if s == 13 || s == 43 then 1 else 0 }

  function SeedCalls(t: Table, child: bool): nat -> nat {
    match t
    case Part => PartCalls
    case PSupp => PSuppCalls
    case Supp => SuppCalls
    case Cust => CustCalls
    case Order => OrderCalls
    case Line => if child then LinkedLineCalls else LineCalls
    case OrderLine => OrderCalls
    case PartPSupp => PartCalls
  }

  /** What set_state skips for one row of a table: the table's own streams and its child's. */
  function RowCalls(t: Table, s: nat): nat {
    SeedCalls(t, t.Line?)(s) + if Child(t).Some? then SeedCalls(Child(t).value, false)(s) else 0
  }

  function PerRow(t: Table): nat -> nat {
    s => RowCalls(t, s)
  }

  /** Every stream advanced by its number of calls. */
  ghost predicate Advanced(before: Values, after: Values, calls: nat -> nat, rows: nat) {
    forall s | 0 <= s < STREAMS :: after[s] == Iterate(before[s], calls(s) * rows)
  }

  lemma AdvancedTwice(a: Values, b: Values, c: Values, calls: nat -> nat, m: nat, n: nat)
    requires Advanced(a, b, calls, m) && Advanced(b, c, calls, n)
    ensures Advanced(a, c, calls, m + n)
  {
    forall s | 0 <= s < STREAMS ensures c[s] == Iterate(a[s], calls(s) * (m + n)) {
      IterateAdds(a[s], calls(s) * m, calls(s) * n);
      assert calls(s) * (m + n) == calls(s) * m + calls(s) * n;
    }
  }

  lemma AdvancedScale(a: Values, b: Values, once: nat -> nat, k: nat, calls: nat -> nat, rows: nat)
    requires Advanced(a, b, once, k * rows) && forall s | 0 <= s < STREAMS :: calls(s) == k * once(s)
    ensures Advanced(a, b, calls, rows)
  {
    forall s | 0 <= s < STREAMS ensures b[s] == Iterate(a[s], calls(s) * rows) {
      assert once(s) * (k * rows) == k * once(s) * rows;
    }
  }

  /** One skip function after another, over the same rows. */
  lemma AdvancedBoth(a: Values, b: Values, c: Values, f: nat -> nat, g: nat -> nat, both: nat -> nat, rows: nat)
    requires Advanced(a, b, f, rows) && Advanced(b, c, g, rows)
    requires forall s | 0 <= s < STREAMS :: both(s) == f(s) + g(s)
    ensures Advanced(a, c, both, rows)
  {
    forall s | 0 <= s < STREAMS ensures c[s] == Iterate(a[s], both(s) * rows) {
      IterateAdds(a[s], f(s) * rows, g(s) * rows);
      assert both(s) * rows == f(s) * rows + g(s) * rows;
    }
  }

  /** The same skip function once more. */
  lemma AdvancedAgain(a: Values, b: Values, c: Values, calls: nat -> nat, j: nat, rows: nat)
    requires Advanced(a, b, calls, j * rows) && Advanced(b, c, calls, rows)
    ensures Advanced(a, c, calls, (j + 1) * rows)
  {
    AdvancedTwice(a, b, c, calls, j * rows, rows);
    assert (j + 1) * rows == j * rows + rows;
  }

  lemma AdvancedSame(a: Values, b: Values, f: nat -> nat, g: nat -> nat, rows: nat)
    requires Advanced(a, b, f, rows) && forall s | 0 <= s < STREAMS :: f(s) == g(s)
    ensures Advanced(a, b, g, rows)
  {
  }

  lemma AdvancedByNone(v: Values, calls: nat -> nat)
    ensures Advanced(v, v, calls, 0)
  {
    assert forall s | 0 <= s < STREAMS :: calls(s) * 0 == 0;
  }

  /** A stream over `rows` rows of so many calls each. */
  function OverRows(x: nat, calls: nat, rows: nat): (y: nat)
    ensures x < MODULUS ==> y < MODULUS
  {
    Iterate(x, calls * rows)
  }

  /** The same with the calls so far counted stream by stream. */
  ghost predicate Moved(before: Values, after: Values, calls: seq<nat>, rows: nat) {
    |calls| == STREAMS && forall s | 0 <= s < STREAMS :: after[s] == OverRows(before[s], calls[s], rows)
  }

  function NoCalls(): seq<nat> {
    seq(STREAMS, _ => 0)
  }

  lemma NothingMoved(v: Values, rows: nat)
    ensures Moved(v, v, NoCalls(), rows)
  {
  }

  lemma OneStreamMoves(start: Values, v: Values, w: Values, calls: seq<nat>, s: nat, perRow: nat, rows: nat)
    requires s < STREAMS && Moved(start, v, calls, rows) && w == v[s := OverRows(v[s], perRow, rows)]
    ensures Moved(start, w, calls[s := calls[s] + perRow], rows)
  {
    SkipsAdd(start[s], calls[s], perRow, rows);
  }

  lemma SkipsAdd(x: nat, f: nat, g: nat, rows: nat)
    ensures OverRows(OverRows(x, f, rows), g, rows) == OverRows(x, f + g, rows)
  {
    IterateAdds(x, f * rows, g * rows);
    assert (f + g) * rows == f * rows + g * rows;
  }

  lemma MovedIsAdvanced(a: Values, b: Values, counted: seq<nat>, calls: nat -> nat, rows: nat)
    requires Moved(a, b, counted, rows) && forall s | 0 <= s < STREAMS :: counted[s] == calls(s)
    ensures Advanced(a, b, calls, rows)
  {
  }

  function PSuppOnce(s: nat): nat { if s == 7 || s == 8 then 1 else if s == 9 then 2 else 0 }

  function LineOnce(s: nat): nat { if 14 <= s <= 24 then 1 else if s == 25 then 2 else 0 }

  class Seeds {
    var value: Values

    constructor (value: Values)
      ensures this.value == value
    {
      this.value := value;
    }

    method AdvanceStream(s: nat, calls: nat)
      requires s < STREAMS
      modifies this
      ensures value == old(value)[s := Iterate(old(value)[s], calls)]
    {
      var z := NthElement(calls, value[s]);
      value := value[s := z];
    }

    /** ADVANCE_STREAM in a skip function: `perRow` calls for each of `rows` rows, on top of what the
        function has done since `start`. */
    method Skip(s: nat, perRow: nat, rows: nat, ghost start: Values, ghost done: seq<nat>) returns (ghost now: seq<nat>)
      requires s < STREAMS && Moved(start, value, done, rows)
      modifies this
      ensures now == done[s := done[s] + perRow] && Moved(start, value, now, rows)
    {
      ghost var before := value;
      AdvanceStream(s, perRow * rows);
      now := done[s := done[s] + perRow];
      OneStreamMoves(start, before, value, done, s, perRow, rows);
    }

    /** The loops over consecutive streams in sd_part and sd_line. */
    method SkipRange(lo: nat, hi: nat, rows: nat, ghost start: Values, ghost done: seq<nat>)
      returns (ghost now: seq<nat>)
      requires lo <= hi < STREAMS && Moved(start, value, done, rows)
      modifies this
      ensures Moved(start, value, now, rows)
      ensures forall s | 0 <= s < STREAMS :: now[s] == done[s] + if lo <= s <= hi then 1 else 0
    {
      now := done;
      var i := lo;
      while i <= hi
        invariant lo <= i <= hi + 1 && Moved(start, value, now, rows)
        invariant forall s | 0 <= s < STREAMS :: now[s] == done[s] + if lo <= s < i then 1 else 0
      {
        now := Skip(i, 1, rows, start, now);
        i := i + 1;
      }
    }

    method SdCust(skip: nat)
      modifies this
      ensures Advanced(old(value), value, CustCalls, skip)
    {
      ghost var start, n := value, NoCalls();
      NothingMoved(start, skip);
      n := Skip(26, 9, skip, start, n);
      n := Skip(31, 2, skip, start, n);
      n := Skip(27, 1, skip, start, n);
      n := Skip(28, 3, skip, start, n);
      n := Skip(29, 1, skip, start, n);
      n := Skip(30, 1, skip, start, n);
      MovedIsAdvanced(start, value, n, CustCalls, skip);
    }

    method SdSupp(skip: nat)
      modifies this
      ensures Advanced(old(value), value, SuppCalls, skip)
    {
      ghost var start, n := value, NoCalls();
      NothingMoved(start, skip);
      n := Skip(33, 1, skip, start, n);
      n := Skip(34, 3, skip, start, n);
      n := Skip(35, 1, skip, start, n);
      n := Skip(32, 9, skip, start, n);
      n := Skip(36, 2, skip, start, n);
      n := Skip(46, 1, skip, start, n);
      n := Skip(44, 1, skip, start, n);
      n := Skip(47, 1, skip, start, n);
      n := Skip(45, 1, skip, start, n);
      MovedIsAdvanced(start, value, n, SuppCalls, skip);
    }

    method SdOrder(skip: nat)
      modifies this
      ensures Advanced(old(value), value, OrderCalls, skip)
    {
      ghost var start, n := value, NoCalls();
      NothingMoved(start, skip);
      n := Skip(43, 1, skip, start, n);
      n := Skip(40, 1, skip, start, n);
      n := Skip(12, 2, skip, start, n);
      n := Skip(10, 1, skip, start, n);
      n := Skip(11, 1, skip, start, n);
      n := Skip(38, 1, skip, start, n);
      n := Skip(13, 1, skip, start, n);
      MovedIsAdvanced(start, value, n, OrderCalls, skip);
    }

    method SdPart(skip: nat)
      modifies this
      ensures Advanced(old(value), value, PartCalls, skip)
    {
      ghost var start, n := value, NoCalls();
      NothingMoved(start, skip);
      n := SkipRange(0, 4, skip, start, n);
      n := Skip(6, 2, skip, start, n);
      n := Skip(37, 92, skip, start, n);
      MovedIsAdvanced(start, value, n, PartCalls, skip);
    }

    method SdPSuppOnce(skip: nat)
      modifies this
      ensures Advanced(old(value), value, PSuppOnce, skip)
    {
      ghost var start, n := value, NoCalls();
      NothingMoved(start, skip);
      n := Skip(7, 1, skip, start, n);
      n := Skip(8, 1, skip, start, n);
      n := Skip(9, 2, skip, start, n);
      MovedIsAdvanced(start, value, n, PSuppOnce, skip);
    }

    method SdPSupp(skip: nat)
      modifies this
      ensures Advanced(old(value), value, PSuppCalls, skip)
    {
      AdvancedByNone(value, PSuppOnce);
      ghost var start := value;
      var j: nat := 0;
      while j < SUPP_PER_PART
        invariant 0 <= j <= SUPP_PER_PART
        invariant Advanced(start, value, PSuppOnce, j * skip)
      {
        ghost var before := value;
        SdPSuppOnce(skip);
        AdvancedAgain(start, before, value, PSuppOnce, j, skip);
        j := j + 1;
      }
      AdvancedScale(start, value, PSuppOnce, SUPP_PER_PART, PSuppCalls, skip);
    }

    /** The inner loop of sd_line. */
    method SdLineOnce(skip: nat)
      modifies this
      ensures Advanced(old(value), value, LineOnce, skip)
    {
      ghost var start, n := value, NoCalls();
      NothingMoved(start, skip);
      n := SkipRange(14, 24, skip, start, n);
      n := Skip(25, 2, skip, start, n);
      MovedIsAdvanced(start, value, n, LineOnce, skip);
    }

    /** The streams shared by an order and its line items. */
    method SkipLink(skip: nat)
      modifies this
      ensures Advanced(old(value), value, LinkCalls, skip)
    {
      ghost var start, n := value, NoCalls();
      NothingMoved(start, skip);
      n := Skip(13, 1, skip, start, n);
      n := Skip(43, 1, skip, start, n);
      MovedIsAdvanced(start, value, n, LinkCalls, skip);
    }

    method SkipLines(skip: nat)
      modifies this
      ensures Advanced(old(value), value, LineCalls, skip)
    {
      AdvancedByNone(value, LineOnce);
      ghost var start := value;
      var j: nat := 0;
      while j < O_LCNT_MAX
        invariant 0 <= j <= O_LCNT_MAX
        invariant Advanced(start, value, LineOnce, j * skip)
      {
        ghost var before := value;
        SdLineOnce(skip);
        AdvancedAgain(start, before, value, LineOnce, j, skip);
        j := j + 1;
      }
      AdvancedScale(start, value, LineOnce, O_LCNT_MAX, LineCalls, skip);
    }

    method SdLine(child: bool, skip: nat)
      modifies this
      ensures Advanced(old(value), value, if child then LinkedLineCalls else LineCalls, skip)
    {
      SkipLines(skip);
      if child {
        ghost var lines := value;
        SkipLink(skip);
        AdvancedBoth(old(value), lines, value, LineCalls, LinkCalls, LinkedLineCalls, skip);
      }
    }

    /** tdefs[t].gen_seed */
    method GenSeed(t: Table, child: bool, skip: nat)
      modifies this
      ensures Advanced(old(value), value, SeedCalls(t, child), skip)
    {
      match t
      case Part => SdPart(skip);
      case PSupp => SdPSupp(skip);
      case Supp => SdSupp(skip);
      case Cust => SdCust(skip);
      case Order => SdOrder(skip);
      case Line => SdLine(child, skip);
      case OrderLine => SdOrder(skip);
      case PartPSupp => SdPart(skip);
    }

    /** One round of the loop of set_state. */
    method SkipRows(t: Table, rows: nat)
      modifies this
      ensures Advanced(old(value), value, PerRow(t), rows)
    {
      GenSeed(t, t.Line?, rows);
      if Child(t).Some? {
        ghost var own := value;
        GenSeed(Child(t).value, false, rows);
        AdvancedBoth(old(value), own, value, SeedCalls(t, t.Line?), SeedCalls(Child(t).value, false), PerRow(t), rows);
      } else {
        AdvancedSame(old(value), value, SeedCalls(t, t.Line?), PerRow(t), rows);
      }
    }

    /** set_state: positions every stream at the first row of a chunk, and gives the size of a chunk
        and the rows left over. With a step past the last chunk the leftover rows are skipped too. */
    method SetState(t: Table, base: nat, sf: nat, procs: nat, step: nat) returns (rowcount: nat, extra: nat)
      requires procs > 0
      modifies this
      ensures sf == 0 || step == 0 ==> rowcount == 0 && value == old(value)
      ensures sf > 0 && step > 0 ==> rowcount == (base * sf) / procs && extra == (base * sf) % procs
      ensures sf > 0 && 0 < step <= procs ==> Advanced(old(value), value, PerRow(t), (step - 1) * rowcount)
      ensures sf > 0 && step > procs ==>
        exists v: Values | Advanced(old(value), v, PerRow(t), (step - 1) * rowcount) ::
          Advanced(v, value, SeedCalls(t, false), extra)
    {
      if sf == 0 || step == 0 {
        rowcount, extra := 0, *;
        return;
      }
      extra := (base * sf) % procs;
      rowcount := (base * sf) / procs;
      AdvancedByNone(value, PerRow(t));
      ghost var start := value;
      var i: nat := 0;
      while i < step - 1
        invariant i <= step - 1
        invariant Advanced(start, value, PerRow(t), i * rowcount)
      {
        ghost var before := value;
        SkipRows(t, rowcount);
        AdvancedAgain(start, before, value, PerRow(t), i, rowcount);
        i := i + 1;
      }
      if step > procs {
        GenSeed(t, false, extra);
      }
    }
  }
}
