/**
 * Writing positions: chunked multi-row inserts that ignore conflicts, and the bisection that isolates
 * the rows the database rejects on their own merits. A statement is all or nothing; it fails if one
 * of its rows is unacceptable, and it can fail for reasons that have nothing to do with its rows.
 */
module Positions {
  import opened Options

  /** The primary key of positions. */
  datatype Key = Key(device: int, fixTime: int, recHash: int)

  /** A normalized record: the stream entry it came from, its key, and whether the columns can hold it. */
  datatype Row = Row(entry: nat, key: Key, acceptable: bool)

  const MAX_BATCH_ROWS := 500

  /** SQLSTATE class 22 or 23: the row is bad, not the database. */
  predicate IsRowRejection(code: Option<string>) {
    code.Some? && ("22" <= code.value || "23" <= code.value)
  }

  datatype QueryResult = RowCount(n: nat) | Failed(code: Option<string>)

  function Keys(rows: seq<Row>): set<Key> {
    set r | r in rows :: r.key
  }

  predicate AllAcceptable(rows: seq<Row>) {
    forall r :: r in rows ==> r.acceptable
  }

  function Good(rows: seq<Row>): seq<Row> {
    if rows == [] then []
    else if rows[0].acceptable then [rows[0]] + Good(rows[1..])
    else Good(rows[1..])
  }

  function Bad(rows: seq<Row>): seq<Row> {
    if rows == [] then []
    else if rows[0].acceptable then Bad(rows[1..])
    else [rows[0]] + Bad(rows[1..])
  }

  /** The positions table, and how many statements it has been sent. */
  class Db {
    var table: set<Key>
    var statements: nat
    /** The number of the statement that fails for a transient reason, if any will. */
    const outage: Option<nat>
    /** Whether that statement takes effect before the connection is lost. */
    const lands: bool

    constructor (outage: Option<nat>, lands: bool)
      ensures table == {} && statements == 0 && this.outage == outage && this.lands == lands
    {
      table, statements := {}, 0;
      this.outage, this.lands := outage, lands;
    }

    /** INSERT … ON CONFLICT DO NOTHING. */
    method Insert(rows: seq<Row>) returns (r: QueryResult)
      modifies this
      ensures statements == old(statements) + 1
      ensures old(table) <= table <= old(table) + Keys(rows)
      ensures outage == Some(old(statements)) ==> r == Failed(None) && (!AllAcceptable(rows) ==> table == old(table))
      ensures outage != Some(old(statements)) ==>
                if AllAcceptable(rows)
                then table == old(table) + Keys(rows) && r == RowCount(|table - old(table)|)
                else table == old(table) && r == Failed(Some("22003"))
    {
      var transient := outage == Some(statements);
      statements := statements + 1;
      if !AllAcceptable(rows) { return Failed(if transient then None else Some("22003")); }
      var before := table;
      if !transient || lands { table := table + Keys(rows); }
      r := if transient then Failed(None) else RowCount(|table - before|);
    }
  }

  // ----- writePositions -----

  /** Where the chunk that starts at `off` ends. */
  function ChunkEnd(rows: seq<Row>, off: nat): (end: nat)
    requires off < |rows|
    ensures off < end <= |rows|
  {
    if off + MAX_BATCH_ROWS <= |rows| then off + MAX_BATCH_ROWS else |rows|
  }

  /** The rows of the chunks that go in before the first chunk that is rejected. */
  function Landed(rows: seq<Row>): seq<Row>
    decreases |rows|
  {
    if rows == [] then []
    else
      var end := ChunkEnd(rows, 0);
      if AllAcceptable(rows[..end]) then rows[..end] + Landed(rows[end..]) else []
  }

  /** The chunks before `off` have landed, and what lands of the rest is up to the rest. */
  ghost predicate LandedUpTo(rows: seq<Row>, off: nat) {
    off <= |rows| && Landed(rows) == rows[..off] + Landed(rows[off..])
  }

  lemma LandedStep(rows: seq<Row>, off: nat)
    requires off < |rows| && LandedUpTo(rows, off)
    ensures var end := ChunkEnd(rows, off);
      if AllAcceptable(rows[off..end]) then LandedUpTo(rows, end) else Landed(rows) == rows[..off]
  {
    var end, rest := ChunkEnd(rows, off), rows[off..];
    hide AllAcceptable, Landed;
    FirstChunk(rest);
    ChunkOfRest(rows, off, end);
    Rejoin(rows, off, end, Landed(rows[end..]));
  }

  lemma ChunkOfRest(rows: seq<Row>, off: nat, end: nat)
    requires off <= end <= |rows|
    ensures rows[off..][..end - off] == rows[off..end] && rows[off..][end - off..] == rows[end..]
    ensures rows[..off] + [] == rows[..off]
  {
  }

  lemma FirstChunk(rows: seq<Row>)
    requires rows != []
    ensures var end := ChunkEnd(rows, 0);
      Landed(rows) == if AllAcceptable(rows[..end]) then rows[..end] + Landed(rows[end..]) else []
  {
  }

  lemma Rejoin(rows: seq<Row>, off: nat, end: nat, more: seq<Row>)
    requires off <= end <= |rows|
    ensures rows[..off] + (rows[off..end] + more) == rows[..end] + more
  {
    assert rows[..end] == rows[..off] + rows[off..end];
  }

  lemma LandedFirst(rows: seq<Row>)
    ensures LandedUpTo(rows, 0)
  {
    assert rows[0..] == rows && rows[..0] == [];
  }

  /** One statement of the chunk loop; `start` is the table before the first. */
  method InsertChunk(db: Db, records: seq<Row>, off: nat, ghost start: set<Key>) returns (r: QueryResult)
    requires off < |records| && AllAcceptable(records[..off]) && db.table == start + Keys(records[..off])
    requires LandedUpTo(records, off)
    modifies db
    ensures db.statements == old(db.statements) + 1
    ensures start <= db.table <= start + Keys(Good(records))
    ensures var end := ChunkEnd(records, off);
      r.RowCount? ==>
        && AllAcceptable(records[..end]) && LandedUpTo(records, end)
        && db.table == start + Keys(records[..end])
        && |old(db.table) - start| + r.n == |db.table - start|
    ensures r.Failed? && IsRowRejection(r.code) ==> !AllAcceptable(records) && db.table == start + Keys(Landed(records))
    ensures r.Failed? && !IsRowRejection(r.code) ==> db.outage == Some(old(db.statements))
  {
    Codes();
    var end := ChunkEnd(records, off);
    SliceRows(records, off, end);
    LandedStep(records, off);
    hide Keys, Good, AllAcceptable, IsRowRejection, Landed, LandedUpTo;
    r := db.Insert(records[off..end]);
    GrowthAdds(start, start, old(db.table), db.table);
  }

  /** Chunks go in one by one; an error leaves the chunks before it in place and loses their count. */
  method WritePositions(db: Db, records: seq<Row>) returns (r: QueryResult)
    modifies db
    ensures old(db.table) <= db.table <= old(db.table) + Keys(Good(records))
    ensures old(db.statements) <= db.statements
    ensures r.RowCount? ==>
              AllAcceptable(records) && db.table == old(db.table) + Keys(records) && r.n == |db.table - old(db.table)|
    ensures r.Failed? && IsRowRejection(r.code) ==>
              !AllAcceptable(records) && db.table == old(db.table) + Keys(Landed(records))
    ensures r.Failed? && !IsRowRejection(r.code) ==>
              db.outage.Some? && old(db.statements) <= db.outage.value < db.statements
    ensures 0 < |records| <= MAX_BATCH_ROWS ==> db.statements == old(db.statements) + 1
    ensures records == [] ==> db.statements == old(db.statements)
  {
    var inserted, off := 0, 0;
    assert records[..0] == [] && Keys([]) == {} && AllAcceptable([]) && db.table - db.table == {};
    Codes();
    AllGood(records);
    LandedFirst(records);
    hide Keys, Good, AllAcceptable, IsRowRejection, Landed, LandedUpTo;
    while off < |records|
      invariant 0 <= off <= |records|
      invariant LandedUpTo(records, off)
      invariant AllAcceptable(records[..off])
      invariant db.table == old(db.table) + Keys(records[..off])
      invariant inserted == |db.table - old(db.table)|
      invariant old(db.statements) <= db.statements
      invariant off == 0 ==> db.statements == old(db.statements)
      invariant off > 0 && |records| <= MAX_BATCH_ROWS ==> off == |records| && db.statements == old(db.statements) + 1
    {
      var end := ChunkEnd(records, off);
      var res := InsertChunk(db, records, off, old(db.table));
      if res.Failed? { return res; }
      inserted := inserted + res.n;
      off := end;
    }
    assert records[..|records|] == records;
    r := RowCount(inserted);
  }

  lemma AllGood(rows: seq<Row>)
    ensures AllAcceptable(rows) ==> Good(rows) == rows && Bad(rows) == []
  {
    GoodMembers(rows);
  }

  lemma Codes()
    ensures IsRowRejection(Some("22003")) && !IsRowRejection(None)
  {
  }

  lemma SliceRows(rows: seq<Row>, off: nat, end: nat)
    requires off <= end <= |rows|
    ensures rows[..end] == rows[..off] + rows[off..end]
    ensures Keys(rows[..end]) == Keys(rows[..off]) + Keys(rows[off..end])
    ensures AllAcceptable(rows[..end]) <==> AllAcceptable(rows[..off]) && AllAcceptable(rows[off..end])
    ensures AllAcceptable(rows) ==> AllAcceptable(rows[off..end])
    ensures AllAcceptable(rows[..off]) ==> Keys(rows[..off]) <= Keys(Good(rows))
    ensures AllAcceptable(rows[off..end]) ==> Keys(rows[off..end]) <= Keys(Good(rows))
  {
    assert rows[..end] == rows[..off] + rows[off..end];
    GoodMembers(rows);
    assert forall r :: r in rows[..end] <==> r in rows[..off] || r in rows[off..end];
  }

  lemma {:induction false} GoodMembers(rows: seq<Row>)
    ensures forall r :: r in Good(rows) <==> r in rows && r.acceptable
    ensures forall r :: r in Bad(rows) <==> r in rows && !r.acceptable
    ensures |Good(rows)| + |Bad(rows)| == |rows|
    ensures AllAcceptable(rows) <==> Bad(rows) == []
    ensures AllAcceptable(rows) ==> Good(rows) == rows
  {
    if rows != [] {
      GoodMembers(rows[1..]);
      assert rows == [rows[0]] + rows[1..];
      assert forall r :: r in rows <==> r == rows[0] || r in rows[1..];
    }
  }

  // ----- bisection -----

  /** How many statements isolating the bad rows of a batch takes. */
  function Statements(rows: seq<Row>): nat
    decreases |rows|
  {
    if rows == [] then 0
    else if AllAcceptable(rows) || |rows| == 1 then 1
    else 1 + Statements(rows[..|rows| / 2]) + Statements(rows[|rows| / 2..])
  }

  lemma {:induction false} BadSplits(a: seq<Row>, b: seq<Row>)
    ensures Bad(a + b) == Bad(a) + Bad(b)
  {
    if a == [] {
      assert a + b == b;
    } else {
      assert (a + b)[1..] == a[1..] + b;
      BadSplits(a[1..], b);
    }
  }

  lemma {:induction false} GoodSplits(a: seq<Row>, b: seq<Row>)
    ensures Good(a + b) == Good(a) + Good(b)
  {
    if a == [] {
      assert a + b == b;
    } else {
      assert (a + b)[1..] == a[1..] + b;
      GoodSplits(a[1..], b);
    }
  }

  lemma HalvesBad(rows: seq<Row>, mid: nat)
    requires mid <= |rows|
    ensures Bad(rows) == Bad(rows[..mid]) + Bad(rows[mid..]) && Good(rows) == Good(rows[..mid]) + Good(rows[mid..])
    ensures Keys(Good(rows)) == Keys(Good(rows[..mid])) + Keys(Good(rows[mid..]))
  {
    assert rows == rows[..mid] + rows[mid..];
    BadSplits(rows[..mid], rows[mid..]);
    GoodSplits(rows[..mid], rows[mid..]);
    var g, h := Good(rows[..mid]), Good(rows[mid..]);
    assert forall r :: r in g + h <==> r in g || r in h;
  }

  /** The growth of the table that goes unreported: what a call that is rejected had already let in. */
  function Lost(table: set<Key>, rows: seq<Row>): nat
    decreases |rows|, 1
  {
    if AllAcceptable(rows) || |rows| <= 1 then 0
    else |Keys(Landed(rows)) - table| + LostInHalves(table + Keys(Landed(rows)), rows)
  }

  function LostInHalves(table: set<Key>, rows: seq<Row>): nat
    requires |rows| >= 2
    decreases |rows|, 0
  {
    var mid := |rows| / 2;
    Lost(table, rows[..mid]) + Lost(table + Keys(Good(rows[..mid])), rows[mid..])
  }

  datatype WriteResult = Written(inserted: nat) | Retry

  /** What a call that is not cut off has done: the good rows are in the table, the bad ones are collected in order,
      and the number returned is the growth of the table less what was lost. */
  ghost predicate Wrote(table: set<Key>, table': set<Key>, recs: seq<Row>, bad: seq<Row>, bad': seq<Row>, inserted: nat) {
    && table' == table + Keys(Good(recs))
    && bad' == bad + Bad(recs)
    && inserted + Lost(table, recs) == |table' - table|
  }

  lemma WroteAll(table: set<Key>, table': set<Key>, recs: seq<Row>, bad: seq<Row>)
    requires AllAcceptable(recs) && table' == table + Keys(recs)
    ensures Wrote(table, table', recs, bad, bad, |table' - table|)
  {
    AllGood(recs);
    NothingLost(table, recs);
    assert bad + [] == bad;
  }

  lemma WroteNone(table: set<Key>, recs: seq<Row>, bad: seq<Row>)
    requires |recs| == 1 && !AllAcceptable(recs)
    ensures Keys(Landed(recs)) == {} && Wrote(table, table, recs, bad, bad + [recs[0]], 0)
  {
    OneBad(recs);
    LandedNone(recs);
    NoKeys();
    NothingLost(table, recs);
    assert table - table == {};
  }

  lemma WroteHalves(table: set<Key>, table': set<Key>, recs: seq<Row>, bad: seq<Row>, bad': seq<Row>, inserted: nat)
    requires !AllAcceptable(recs) && |recs| >= 2
    requires var tried := table + Keys(Landed(recs));
      && tried <= table + Keys(Good(recs)) && table' == tried + Keys(Good(recs))
      && bad' == bad + Bad(recs) && inserted + LostInHalves(tried, recs) == |table' - tried|
    ensures Wrote(table, table', recs, bad, bad', inserted)
  {
    LostAdds(table, table', recs);
  }

  /** The inner recursion: `bad` collects the rows isolated so far, in order. */
  method Write(db: Db, recs: seq<Row>, bad: seq<Row>) returns (r: WriteResult, bad': seq<Row>)
    modifies db
    ensures old(db.table) <= db.table <= old(db.table) + Keys(Good(recs))
    ensures old(db.statements) <= db.statements
    ensures r.Retry? ==> db.outage.Some? && old(db.statements) <= db.outage.value < db.statements
    ensures r.Written? ==>
              && Wrote(old(db.table), db.table, recs, bad, bad', r.inserted)
              && (|recs| <= MAX_BATCH_ROWS ==> db.statements == old(db.statements) + Statements(recs))
    decreases |recs|, 1
  {
    bad' := bad;
    StatementsStep(recs);
    hide Keys, Good, Bad, Statements, AllAcceptable, IsRowRejection, Landed, LostInHalves, Wrote;
    if recs == [] {
      NoKeys();
      WroteAll(db.table, db.table, recs, bad);
      assert db.table - db.table == {};
      return Written(0), bad;
    }
    var res := WritePositions(db, recs);
    if res.RowCount? {
      WroteAll(old(db.table), db.table, recs, bad);
      return Written(res.n), bad;
    }
    if !IsRowRejection(res.code) { return Retry, bad; }
    if |recs| == 1 {
      WroteNone(old(db.table), recs, bad);
      return Written(0), bad + [recs[0]];
    }
    r, bad' := WriteHalves(db, recs, bad);
    if r.Written? {
      WroteHalves(old(db.table), db.table, recs, bad, bad', r.inserted);
    }
  }

  /** Both halves of a batch that was rejected as a whole. */
  method WriteHalves(db: Db, recs: seq<Row>, bad: seq<Row>) returns (r: WriteResult, bad': seq<Row>)
    requires |recs| >= 2 && !AllAcceptable(recs)
    modifies db
    ensures old(db.table) <= db.table <= old(db.table) + Keys(Good(recs))
    ensures old(db.statements) <= db.statements
    ensures r.Retry? ==> db.outage.Some? && old(db.statements) <= db.outage.value < db.statements
    ensures r.Written? ==>
              && db.table == old(db.table) + Keys(Good(recs))
              && bad' == bad + Bad(recs)
              && r.inserted + LostInHalves(old(db.table), recs) == |db.table - old(db.table)|
              && (|recs| <= MAX_BATCH_ROWS ==> db.statements + 1 == old(db.statements) + Statements(recs))
    decreases |recs|, 0
  {
    StatementsStep(recs);
    hide Keys, Good, Bad, Statements, AllAcceptable, Landed, Lost;
    var mid := |recs| / 2;
    HalvesBad(recs, mid);
    var left, bad1 := Write(db, recs[..mid], bad);
    if left.Retry? { return left, bad1; }
    ghost var between := db.table;
    var right, bad2 := Write(db, recs[mid..], bad1);
    if right.Retry? { return right, bad2; }
    GrowthAdds(old(db.table), old(db.table), between, db.table);
    assert bad + (Bad(recs[..mid]) + Bad(recs[mid..])) == (bad + Bad(recs[..mid])) + Bad(recs[mid..]);
    r, bad' := Written(left.inserted + right.inserted), bad2;
  }

  lemma NothingLost(table: set<Key>, rows: seq<Row>)
    ensures AllAcceptable(rows) || |rows| <= 1 ==> Lost(table, rows) == 0
  {
  }

  /** The growth of a rejected call and of its halves. */
  lemma LostAdds(table: set<Key>, table': set<Key>, rows: seq<Row>)
    requires !AllAcceptable(rows) && |rows| >= 2 && table + Keys(Landed(rows)) <= table'
    ensures var tried := table + Keys(Landed(rows));
      |table' - tried| - LostInHalves(tried, rows) == |table' - table| - Lost(table, rows)
  {
    LostStep(table, rows);
    hide Lost, LostInHalves, Landed, Keys, AllAcceptable;
    var tried := table + Keys(Landed(rows));
    GrowthAdds(table, table, tried, table');
    assert tried - table == Keys(Landed(rows)) - table;
  }

  lemma LostStep(table: set<Key>, rows: seq<Row>)
    ensures Lost(table, rows) ==
            if AllAcceptable(rows) || |rows| <= 1 then 0
            else |Keys(Landed(rows)) - table| + LostInHalves(table + Keys(Landed(rows)), rows)
  {
  }

  /** A batch of one chunk goes in whole or not at all. */
  lemma LandedNone(rows: seq<Row>)
    requires !AllAcceptable(rows) && |rows| <= MAX_BATCH_ROWS
    ensures Landed(rows) == [] && Keys(Landed(rows)) == {}
  {
    assert rows[..|rows|] == rows;
  }

  lemma NoKeys()
    ensures Keys([]) == {} && Good([]) == [] && Bad([]) == [] && AllAcceptable([])
  {
  }

  lemma OneBad(recs: seq<Row>)
    requires |recs| == 1 && !AllAcceptable(recs)
    ensures Bad(recs) == [recs[0]] && Good(recs) == []
  {
    assert recs == [recs[0]];
  }

  lemma StatementsStep(rows: seq<Row>)
    ensures Statements(rows) ==
            if rows == [] then 0
            else if AllAcceptable(rows) || |rows| == 1 then 1
            else 1 + Statements(rows[..|rows| / 2]) + Statements(rows[|rows| / 2..])
  {
  }

  lemma GrowthAdds(t0: set<Key>, t1: set<Key>, t2: set<Key>, t3: set<Key>)
    requires t0 <= t1 <= t2 <= t3
    ensures |t2 - t1| + |t3 - t2| <= |t3 - t0|
    ensures t1 == t0 ==> |t2 - t1| + |t3 - t2| == |t3 - t0|
  {
    assert t3 - t1 == (t2 - t1) + (t3 - t2);
    assert t3 - t0 == (t1 - t0) + (t3 - t1);
  }

  datatype Isolated = Isolated(inserted: nat, kept: seq<Row>, rejected: seq<Row>) | RetryBatch

  method WriteIsolatingBadRows(db: Db, records: seq<Row>) returns (r: Isolated)
    modifies db
    ensures old(db.table) <= db.table <= old(db.table) + Keys(Good(records))
    ensures r.RetryBatch? ==> db.outage.Some? && old(db.statements) <= db.outage.value < db.statements
    ensures r.Isolated? ==>
              && db.table == old(db.table) + Keys(Good(records))
              && r.kept == Good(records) && r.rejected == Bad(records)
              && r.inserted + Lost(old(db.table), records) == |db.table - old(db.table)|
              && (|records| <= MAX_BATCH_ROWS ==> db.statements == old(db.statements) + Statements(records))
  {
    var written, bad := Write(db, records, []);
    if written.Retry? { return RetryBatch; }
    assert [] + Bad(records) == bad;
    GoodMembers(records);
    if bad == [] { return Isolated(written.inserted, records, []); }
    FilterKeepsGood(records, bad);
    r := Isolated(written.inserted, Without(records, bad), bad);
  }

  /** `records.filter((r) => !bad.has(r))` */
  function Without(rows: seq<Row>, bad: seq<Row>): seq<Row> {
    if rows == [] then []
    else if rows[0] in bad then Without(rows[1..], bad)
    else [rows[0]] + Without(rows[1..], bad)
  }

  lemma {:induction false} FilterKeepsGood(rows: seq<Row>, bad: seq<Row>)
    requires forall r :: r in rows ==> (r in bad <==> !r.acceptable)
    ensures Without(rows, bad) == Good(rows)
  {
    if rows != [] {
      FilterKeepsGood(rows[1..], bad);
    }
  }

  // ----- what is reported -----

  /** A batch of at most one chunk loses nothing. */
  lemma {:induction false} OneChunkLosesNothing(table: set<Key>, rows: seq<Row>)
    requires |rows| <= MAX_BATCH_ROWS
    ensures Lost(table, rows) == 0
    decreases |rows|
  {
    if !AllAcceptable(rows) && |rows| > 1 {
      LandedNone(rows);
      hide Landed, AllAcceptable, Keys, Good;
      var mid := |rows| / 2;
      assert table + {} == table && {} - table == {};
      OneChunkLosesNothing(table, rows[..mid]);
      OneChunkLosesNothing(table + Keys(Good(rows[..mid])), rows[mid..]);
    }
  }

  /** A batch of at most two chunks is reported exactly if and only if all of it is acceptable, or its first chunk is
      not, or its first chunk holds nothing new. */
  lemma TwoChunksReportedIff(table: set<Key>, rows: seq<Row>)
    requires MAX_BATCH_ROWS < |rows| <= 2 * MAX_BATCH_ROWS
    ensures Lost(table, rows) == 0 <==>
            || AllAcceptable(rows)
            || !AllAcceptable(rows[..MAX_BATCH_ROWS])
            || Keys(rows[..MAX_BATCH_ROWS]) <= table
  {
    if !AllAcceptable(rows) {
      var first, mid := rows[..MAX_BATCH_ROWS], |rows| / 2;
      var t := table + Keys(Landed(rows));
      FirstOfTwo(rows);
      OneChunkLosesNothing(t, rows[..mid]);
      OneChunkLosesNothing(t + Keys(Good(rows[..mid])), rows[mid..]);
      LostStep(table, rows);
      hide Landed, AllAcceptable, Keys, Good, Lost;
      if AllAcceptable(first) && |Keys(first) - table| == 0 {
        assert Keys(first) - table == {};
      }
      assert |{} - table| == 0 by { assert {} - table == {}; }
    }
  }

  lemma FirstOfTwo(rows: seq<Row>)
    requires MAX_BATCH_ROWS < |rows| <= 2 * MAX_BATCH_ROWS && !AllAcceptable(rows)
    ensures var first := rows[..MAX_BATCH_ROWS];
      && Landed(rows) == (if AllAcceptable(first) then first else [])
      && Keys(Landed(rows)) == if AllAcceptable(first) then Keys(first) else {}
  {
    var first, rest := rows[..MAX_BATCH_ROWS], rows[MAX_BATCH_ROWS..];
    assert rows == first + rest;
    if AllAcceptable(first) {
      assert forall r :: r in rows <==> r in first || r in rest;
      LandedNone(rest);
      assert first + [] == first;
    }
  }

  function FreshRows(n: nat): seq<Row> {
    if n == 0 then [] else FreshRows(n - 1) + [Row(n, Key(0, n, 0), true)]
  }

  lemma {:induction false} FreshRowsGood(n: nat)
    ensures |FreshRows(n)| == n && AllAcceptable(FreshRows(n))
    ensures n > 0 ==> Key(0, n, 0) in Keys(FreshRows(n))
  {
    if n > 0 {
      FreshRowsGood(n - 1);
      assert FreshRows(n)[n - 1] == Row(n, Key(0, n, 0), true);
    }
  }

  /** Five hundred new rows and a bad one: the five hundred go in and are not reported. */
  lemma LaterChunkLosesCount()
    ensures exists rows :: |rows| == MAX_BATCH_ROWS + 1 && Lost({}, rows) > 0
  {
    var first := FreshRows(MAX_BATCH_ROWS);
    var bad := Row(0, Key(1, 0, 0), false);
    FreshRowsGood(MAX_BATCH_ROWS);
    hide FreshRows;
    var rows := first + [bad];
    assert bad in rows && rows[..MAX_BATCH_ROWS] == first;
    TwoChunksReportedIff({}, rows);
    hide Lost, Keys, AllAcceptable;
    assert !AllAcceptable(rows) by { NotAllAcceptable(rows, bad); }
  }

  lemma NotAllAcceptable(rows: seq<Row>, bad: Row)
    requires bad in rows && !bad.acceptable
    ensures !AllAcceptable(rows)
  {
  }

  // ----- the cost -----

  /** ⌈log2 n⌉ */
  function CeilLog2(n: nat): nat
    requires n >= 1
  {
    if n == 1 then 0 else 1 + CeilLog2((n + 1) / 2)
  }

  lemma {:induction false} CeilLog2Monotone(a: nat, b: nat)
    requires 1 <= a <= b
    ensures CeilLog2(a) <= CeilLog2(b)
  {
    if a > 1 {
      CeilLog2Monotone((a + 1) / 2, (b + 1) / 2);
    }
  }

  /** `CeilLog2` is the ceiling of the logarithm: the least exponent whose power of two reaches n. */
  lemma {:induction false} CeilLog2IsLogarithm(n: nat)
    requires n >= 1
    ensures n <= Power(CeilLog2(n))
    ensures n > 1 ==> Power(CeilLog2(n) - 1) < n
  {
    if n > 1 {
      CeilLog2IsLogarithm((n + 1) / 2);
    }
  }

  function Power(k: nat): nat {
    if k == 0 then 1 else 2 * Power(k - 1)
  }

  /** Isolating b bad rows of n costs at most 1 + 2·b·⌈log2 n⌉ statements; a clean batch costs one. */
  lemma {:induction false} StatementsBounded(rows: seq<Row>)
    requires rows != []
    ensures Statements(rows) <= 1 + 2 * (|Bad(rows)| * CeilLog2(|rows|))
    ensures Bad(rows) == [] ==> Statements(rows) == 1
    decreases |rows|
  {
    GoodMembers(rows);
    StatementsStep(rows);
    var n := |rows|;
    hide Statements, Bad, Good, Keys, AllAcceptable;
    ProductNonNegative(|Bad(rows)|, CeilLog2(n));
    if Bad(rows) != [] && n > 1 {
      var mid := n / 2;
      HalvesBad(rows, mid);
      StatementsBounded(rows[..mid]);
      StatementsBounded(rows[mid..]);
      assert (n + 1) / 2 == n - mid && CeilLog2(n) == 1 + CeilLog2(n - mid);
      CeilLog2Monotone(mid, n - mid);
      HalvesBound(|Bad(rows[..mid])|, |Bad(rows[mid..])|, CeilLog2(mid), CeilLog2(n - mid));
    }
  }

  lemma ProductNonNegative(a: nat, b: nat)
    ensures a * b >= 0
  {
  }

  lemma HalvesBound(a: nat, b: nat, x: nat, y: nat)
    requires x <= y && a + b >= 1
    ensures 3 + 2 * (a * x) + 2 * (b * y) <= 1 + 2 * ((a + b) * (1 + y))
  {
    assert a * x <= a * y;
    assert (a + b) * (1 + y) == a + b + a * y + b * y;
  }

  /** The whole promise for a batch that fits one statement. */
  method IsolateWithinBudget(db: Db, records: seq<Row>) returns (r: Isolated)
    requires 1 <= |records| <= MAX_BATCH_ROWS && db.outage.None?
    modifies db
    ensures r.Isolated? && r.kept == Good(records) && r.rejected == Bad(records)
    ensures db.table == old(db.table) + Keys(Good(records)) && r.inserted == |db.table - old(db.table)|
    ensures db.statements <= old(db.statements) + 1 + 2 * (|Bad(records)| * CeilLog2(|records|))
  {
    OneChunkLosesNothing(db.table, records);
    StatementsBounded(records);
    hide Lost, Statements, Good, Bad, Keys, CeilLog2;
    r := WriteIsolatingBadRows(db, records);
  }
}
