/**
 * Processing one batch of stream entries: decode, quarantine what is malformed, sort, insert with the
 * bad rows isolated, quarantine those, hand the rest on, and acknowledge.
 */
module Consumer {
  import opened Positions
  import opened Options
  import Pipeline

  type Bytes = seq<int>

  /** A stream entry: its id and its payload. */
  datatype Entry = Entry(id: nat, payload: Bytes)

  datatype Stage = Decoding | Normalizing

  /** What becomes of a payload: one of the two stages throws, or there is a row. */
  datatype Reading = Throws(stage: Stage) | Fit(key: Key, acceptable: bool)

  type Decoder = Bytes -> Reading

  function RowOf(decode: Decoder, e: Entry): Option<Row> {
    match decode(e.payload)
    case Fit(key, acceptable) => Some(Row(e.id, key, acceptable))
    case Throws(_) => None
  }

  function Ids(entries: seq<Entry>): set<nat> {
    set e | e in entries :: e.id
  }

  ghost predicate DistinctIds(entries: seq<Entry>) {
    forall i, j :: 0 <= i < j < |entries| ==> entries[i].id != entries[j].id
  }

  function Failing(decode: Decoder, entries: seq<Entry>, stage: Stage): seq<Entry> {
    if entries == [] then []
    else
      var n := |entries| - 1;
      var front := Failing(decode, entries[..n], stage);
      if decode(entries[n].payload) == Throws(stage) then front + [entries[n]] else front
  }

  function Decodable(decode: Decoder, entries: seq<Entry>): seq<Entry> {
    if entries == [] then []
    else
      var n := |entries| - 1;
      var front := Decodable(decode, entries[..n]);
      if decode(entries[n].payload) == Throws(Decoding) then front else front + [entries[n]]
  }

  /** The entries to quarantine unread: decoding is over before normalizing starts. */
  function Malformed(decode: Decoder, entries: seq<Entry>): seq<Entry> {
    Failing(decode, entries, Decoding) + Failing(decode, entries, Normalizing)
  }

  function Rows(decode: Decoder, entries: seq<Entry>): seq<Row> {
    if entries == [] then []
    else
      var n := |entries| - 1;
      var front := Rows(decode, entries[..n]);
      if RowOf(decode, entries[n]).Some? then front + [RowOf(decode, entries[n]).value] else front
  }

  // ----- sorting by fix time -----

  ghost predicate Ordered(rows: seq<Row>) {
    forall i, j :: 0 <= i < j < |rows| ==> rows[i].key.fixTime <= rows[j].key.fixTime
  }

  /** `row` placed after every row that is not newer. */
  function Placed(rows: seq<Row>, row: Row): seq<Row> {
    if rows == [] then [row]
    else if rows[|rows| - 1].key.fixTime <= row.key.fixTime then rows + [row]
    else Placed(rows[..|rows| - 1], row) + [rows[|rows| - 1]]
  }

  /** The stable sort of a batch by fix time. */
  function Sorted(rows: seq<Row>): seq<Row> {
    if rows == [] then [] else Placed(Sorted(rows[..|rows| - 1]), rows[|rows| - 1])
  }

  lemma {:induction false} PlacedMembers(rows: seq<Row>, row: Row)
    ensures forall r :: r in Placed(rows, row) <==> r in rows || r == row
  {
    if rows != [] {
      var n := |rows| - 1;
      PlacedMembers(rows[..n], row);
      LastMember(rows);
    }
  }

  lemma LastMember(rows: seq<Row>)
    requires rows != []
    ensures forall r :: r in rows <==> r in rows[..|rows| - 1] || r == rows[|rows| - 1]
  {
    assert rows == rows[..|rows| - 1] + [rows[|rows| - 1]];
  }

  lemma {:induction false} PlacedMultiset(rows: seq<Row>, row: Row)
    ensures multiset(Placed(rows, row)) == multiset(rows) + multiset{row}
  {
    if rows != [] {
      var n := |rows| - 1;
      PlacedMultiset(rows[..n], row);
      assert rows == rows[..n] + [rows[n]];
    }
  }

  lemma {:induction false} PlacedKeepsOrder(rows: seq<Row>, row: Row)
    requires Ordered(rows)
    ensures Ordered(Placed(rows, row))
  {
    if rows != [] && rows[|rows| - 1].key.fixTime > row.key.fixTime {
      var n := |rows| - 1;
      PlacedKeepsOrder(rows[..n], row);
      PlacedMembers(rows[..n], row);
      forall r | r in rows[..n] ensures r.key.fixTime <= rows[n].key.fixTime {
        var i :| 0 <= i < n && rows[..n][i] == r;
        assert rows[i] == r;
      }
      AppendKeepsOrder(Placed(rows[..n], row), rows[n]);
    }
  }

  lemma AppendKeepsOrder(rows: seq<Row>, row: Row)
    requires Ordered(rows) && forall r :: r in rows ==> r.key.fixTime <= row.key.fixTime
    ensures Ordered(rows + [row])
  {
  }

  /** Sorting orders a batch by fix time and changes nothing else. */
  lemma {:induction false} SortedIsOrderedPermutation(rows: seq<Row>)
    ensures Ordered(Sorted(rows)) && multiset(Sorted(rows)) == multiset(rows)
  {
    hide Ordered, Placed;
    if rows == [] {
      assert Ordered([]) by { EmptyIsOrdered(); }
    } else {
      var n := |rows| - 1;
      SortedIsOrderedPermutation(rows[..n]);
      PlacedKeepsOrder(Sorted(rows[..n]), rows[n]);
      PlacedMultiset(Sorted(rows[..n]), rows[n]);
      assert rows == rows[..n] + [rows[n]];
    }
  }

  /** The rows of one fix time, as they come. */
  ghost function AtTime(rows: seq<Row>, t: int): seq<Row> {
    if rows == [] then []
    else
      var n := |rows| - 1;
      if rows[n].key.fixTime == t then AtTime(rows[..n], t) + [rows[n]] else AtTime(rows[..n], t)
  }

  lemma AtTimeLast(rows: seq<Row>, row: Row, t: int)
    ensures AtTime(rows + [row], t) == AtTime(rows, t) + if row.key.fixTime == t then [row] else []
  {
    assert (rows + [row])[..|rows|] == rows;
  }

  lemma {:induction false} PlacedIsStable(rows: seq<Row>, row: Row, t: int)
    ensures AtTime(Placed(rows, row), t) == AtTime(rows + [row], t)
  {
    AtTimeLast(rows, row, t);
    if rows == [] {
      assert [] + [row] == [row];
    } else if rows[|rows| - 1].key.fixTime > row.key.fixTime {
      var n := |rows| - 1;
      var front, last := rows[..n], rows[n];
      PlacedIsStable(front, row, t);
      AtTimeLast(front, row, t);
      AtTimeLast(Placed(front, row), last, t);
      AtTimeLast(front, last, t);
      assert rows == front + [last];
    }
  }

  /** The sort is stable: rows of equal fix time keep the order in which they came. */
  lemma {:induction false} SortedIsStable(rows: seq<Row>, t: int)
    ensures AtTime(Sorted(rows), t) == AtTime(rows, t)
  {
    if rows != [] {
      var n := |rows| - 1;
      SortedIsStable(rows[..n], t);
      PlacedIsStable(Sorted(rows[..n]), rows[n], t);
      AtTimeLast(Sorted(rows[..n]), rows[n], t);
    }
  }

  lemma GoodLast(rows: seq<Row>, row: Row)
    ensures Good(rows + [row]) == Good(rows) + if row.acceptable then [row] else []
  {
    GoodSplits(rows, [row]);
  }

  /** And so do the rows handed on. */
  lemma {:induction false} GoodAtTime(rows: seq<Row>, t: int)
    ensures AtTime(Good(rows), t) == Good(AtTime(rows, t))
  {
    if rows != [] {
      var n := |rows| - 1;
      GoodAtTime(rows[..n], t);
      assert rows == rows[..n] + [rows[n]];
      GoodLast(rows[..n], rows[n]);
      AtTimeLast(rows[..n], rows[n], t);
      AtTimeLast(Good(rows[..n]), rows[n], t);
      GoodLast(AtTime(rows[..n], t), rows[n]);
      assert Good(rows[..n]) + [] == Good(rows[..n]) && AtTime(rows[..n], t) + [] == AtTime(rows[..n], t);
    }
  }

  lemma EmptyIsOrdered()
    ensures Ordered([])
  {
  }

  lemma {:induction false} SortedMembers(rows: seq<Row>)
    ensures forall r :: r in Sorted(rows) <==> r in rows
  {
    SortedIsOrderedPermutation(rows);
    assert forall r :: r in Sorted(rows) <==> r in multiset(Sorted(rows));
    assert forall r :: r in rows <==> r in multiset(rows);
  }

  lemma PrependKeepsOrder(row: Row, rows: seq<Row>)
    requires Ordered(rows) && forall r :: r in rows ==> row.key.fixTime <= r.key.fixTime
    ensures Ordered([row] + rows)
  {
  }

  /** The rows handed on are in order too. */
  lemma {:induction false} GoodKeepsOrder(rows: seq<Row>)
    requires Ordered(rows)
    ensures Ordered(Good(rows))
  {
    if rows != [] {
      GoodKeepsOrder(rows[1..]);
      if rows[0].acceptable {
        GoodMembers(rows[1..]);
        forall r | r in rows[1..] ensures rows[0].key.fixTime <= r.key.fixTime {
          var i :| 0 <= i < |rows[1..]| && rows[1..][i] == r;
          assert rows[i + 1] == r;
        }
        PrependKeepsOrder(rows[0], Good(rows[1..]));
      }
    }
  }

  /** The batch handed downstream is exactly the acceptable rows, oldest first and those of equal fix time in the
      order in which they came. */
  lemma HandedOffInOrder(rows: seq<Row>)
    ensures Ordered(Good(Sorted(rows)))
    ensures forall r :: r in Good(Sorted(rows)) <==> r in rows && r.acceptable
    ensures forall t :: AtTime(Good(Sorted(rows)), t) == Good(AtTime(rows, t))
  {
    forall t ensures AtTime(Good(Sorted(rows)), t) == Good(AtTime(rows, t)) {
      GoodAtTime(Sorted(rows), t);
      SortedIsStable(rows, t);
    }
    SortedIsOrderedPermutation(rows);
    SortedMembers(rows);
    GoodKeepsOrder(Sorted(rows));
    GoodMembers(Sorted(rows));
  }

  // ----- the batch -----

  lemma {:induction false} FailingMembers(decode: Decoder, entries: seq<Entry>, stage: Stage)
    ensures forall e :: e in Failing(decode, entries, stage) <==> e in entries && decode(e.payload) == Throws(stage)
  {
    if entries != [] {
      var n := |entries| - 1;
      FailingMembers(decode, entries[..n], stage);
      assert entries == entries[..n] + [entries[n]];
    }
  }

  lemma {:induction false} DecodableMembers(decode: Decoder, entries: seq<Entry>)
    ensures forall e :: e in Decodable(decode, entries) ==> decode(e.payload) != Throws(Decoding)
  {
    if entries != [] {
      DecodableMembers(decode, entries[..|entries| - 1]);
    }
  }

  lemma {:induction false} RowsMembers(decode: Decoder, entries: seq<Entry>)
    ensures forall r :: r in Rows(decode, entries) <==> exists e :: e in entries && RowOf(decode, e) == Some(r)
  {
    if entries != [] {
      var n := |entries| - 1;
      RowsMembers(decode, entries[..n]);
      assert entries == entries[..n] + [entries[n]];
      assert forall e :: e in entries <==> e in entries[..n] || e == entries[n];
    }
  }

  lemma NoRow(decode: Decoder, e: Entry)
    ensures RowOf(decode, e).None? <==>
            decode(e.payload) == Throws(Decoding) || decode(e.payload) == Throws(Normalizing)
  {
    match decode(e.payload) {
      case Throws(Decoding) =>
      case Throws(Normalizing) =>
      case Fit(_, _) =>
    }
  }

  lemma {:induction false} EntriesCounted(decode: Decoder, entries: seq<Entry>)
    ensures |Malformed(decode, entries)| + |Rows(decode, entries)| == |entries|
  {
    if entries != [] {
      EntriesCounted(decode, entries[..|entries| - 1]);
      NoRow(decode, entries[|entries| - 1]);
    }
  }

  lemma EntriesSplit(decode: Decoder, entries: seq<Entry>)
    ensures forall e :: e in Malformed(decode, entries) <==> e in entries && RowOf(decode, e).None?
    ensures forall r :: r in Rows(decode, entries) <==> exists e :: e in entries && RowOf(decode, e) == Some(r)
  {
    FailingMembers(decode, entries, Decoding);
    FailingMembers(decode, entries, Normalizing);
    RowsMembers(decode, entries);
    forall e ensures e in Malformed(decode, entries) <==> e in entries && RowOf(decode, e).None? {
      NoRow(decode, e);
    }
  }

  /** Normalizing what decoding let through finds what it would have found in the whole batch. */
  lemma {:induction false} DecodableSuffices(decode: Decoder, entries: seq<Entry>)
    ensures Failing(decode, Decodable(decode, entries), Normalizing) == Failing(decode, entries, Normalizing)
    ensures Rows(decode, Decodable(decode, entries)) == Rows(decode, entries)
  {
    if entries != [] {
      var n := |entries| - 1;
      var front := Decodable(decode, entries[..n]);
      DecodableSuffices(decode, entries[..n]);
      assert (front + [entries[n]])[..|front|] == front;
    }
  }

  function EntryIds(rows: seq<Row>): set<nat> {
    set r | r in rows :: r.entry
  }

  /** The quarantined entries of rejected rows, in the rows' order. */
  function EntriesOf(rows: seq<Row>, payload: map<nat, Bytes>): seq<Entry> {
    seq(|rows|, i requires 0 <= i < |rows| =>
      Entry(rows[i].entry, if rows[i].entry in payload then payload[rows[i].entry] else []))
  }

  function Payloads(entries: seq<Entry>): map<nat, Bytes> {
    if entries == [] then map[]
    else Payloads(entries[..|entries| - 1])[entries[|entries| - 1].id := entries[|entries| - 1].payload]
  }

  lemma {:induction false} PayloadLookup(entries: seq<Entry>, e: Entry)
    requires DistinctIds(entries) && e in entries
    ensures e.id in Payloads(entries) && Payloads(entries)[e.id] == e.payload
  {
    var n := |entries| - 1;
    assert entries == entries[..n] + [entries[n]];
    if e != entries[n] {
      var i :| 0 <= i < n && entries[i] == e;
      assert entries[..n][i] == e;
      PayloadLookup(entries[..n], e);
    }
  }

  datatype Stats = Stats(processed: nat, inserted: nat, deadLettered: nat)

  /** What fails besides the database: each of the three pipelines, after that many of its commands took effect, and
      the downstream handler. */
  datatype Faults = Faults(quarantine: Option<nat>, reject: Option<nat>, handOff: bool, ack: Option<nat>)

  const NoFaults := Faults(None, None, false, None)

  /** The command is one that a failing pipeline did not get to. */
  predicate Cut(fault: Option<nat>, command: nat) {
    fault.Some? && command >= fault.value
  }

  /** The key an entry is known by in the pipeline's terms. */
  function KeyOf(decode: Decoder, e: Entry): Option<Key> {
    match RowOf(decode, e)
    case None => None
    case Some(row) => Some(row.key)
  }

  // ----- what a batch leaves behind -----

  /** What the outside sees of the processor at one moment. */
  datatype Shot = Shot(table: set<Key>, pending: set<nat>, dead: seq<Entry>, handedOff: seq<seq<Row>>, stats: Stats)

  ghost predicate MalformedDone(b: Shot, a: Shot, malformed: seq<Entry>) {
    a == b.(pending := b.pending - Ids(malformed), dead := b.dead + malformed,
            stats := b.stats.(deadLettered := b.stats.deadLettered + |malformed|))
  }

  ghost predicate MalformedCut(b: Shot, a: Shot, malformed: seq<Entry>) {
    && a == b.(pending := a.pending, dead := a.dead)
    && b.dead <= a.dead && b.pending - Ids(malformed) <= a.pending <= b.pending
  }

  /** Table, pending list, dead letters, hand-off and counters after the rows of a batch. */
  ghost predicate RowsDone(b: Shot, a: Shot, rows: seq<Row>, payloads: map<nat, Bytes>) {
    var sorted := Sorted(rows);
    && a.table == b.table + Keys(Good(sorted))
    && a.pending == b.pending - EntryIds(rows)
    && a.dead == b.dead + EntriesOf(Bad(sorted), payloads)
    && a.handedOff == b.handedOff + (if Good(sorted) == [] then [] else [Good(sorted)])
    && a.stats.processed == b.stats.processed + |Good(sorted)|
    && a.stats.deadLettered == b.stats.deadLettered + |Bad(sorted)|
    && a.stats.inserted + Lost(b.table, sorted) == b.stats.inserted + |a.table - b.table|
  }

  /** The same when something failed: `faults`, or the database. Only a failing acknowledgement acknowledges
      any of the rows' entries, and only then they have been handed on. */
  ghost predicate RowsCut(b: Shot, a: Shot, rows: seq<Row>, faults: Faults, outage: bool) {
    var sorted := Sorted(rows);
    && (faults.reject.Some? || faults.handOff || faults.ack.Some? || outage)
    && b.table <= a.table <= b.table + Keys(Good(sorted))
    && b.pending - EntryIds(rows) <= a.pending <= b.pending
    && (faults.ack.None? ==> a.pending == b.pending)
    && b.dead <= a.dead
    && (a.handedOff == b.handedOff || (faults.ack.Some? && a.handedOff == b.handedOff + [Good(sorted)]))
  }

  /** What process() promises when it returns. */
  ghost predicate BatchDone(b: Shot, a: Shot, decode: Decoder, entries: seq<Entry>) {
    var malformed, sorted := Malformed(decode, entries), Sorted(Rows(decode, entries));
    && a.table == b.table + Keys(Good(sorted))
    && a.pending == b.pending - Ids(malformed) - EntryIds(sorted)
    && a.dead == b.dead + malformed + EntriesOf(Bad(sorted), Payloads(entries))
    && a.handedOff == b.handedOff + (if Good(sorted) == [] then [] else [Good(sorted)])
    && a.stats.processed == b.stats.processed + |Good(sorted)|
    && a.stats.deadLettered == b.stats.deadLettered + |malformed| + |Bad(sorted)|
    && a.stats.inserted + Lost(b.table, sorted) == b.stats.inserted + |a.table - b.table|
  }

  /** And when it throws. */
  ghost predicate BatchCut(b: Shot, a: Shot, decode: Decoder, entries: seq<Entry>, faults: Faults, outage: bool) {
    var malformed, sorted := Malformed(decode, entries), Sorted(Rows(decode, entries));
    && (faults != NoFaults || outage)
    && b.table <= a.table <= b.table + Keys(Good(sorted))
    && b.pending - Ids(entries) <= a.pending <= b.pending
    && (faults.quarantine.None? && faults.ack.None? ==> a.pending == b.pending - Ids(malformed))
    && b.dead <= a.dead
    && (a.handedOff == b.handedOff || (faults.ack.Some? && a.handedOff == b.handedOff + [Good(sorted)]))
  }

  ghost predicate InsertDone(b: Shot, a: Shot, sorted: seq<Row>) {
    && a == b.(table := b.table + Keys(Good(sorted)), stats := a.stats)
    && a.stats == b.stats.(inserted := a.stats.inserted, processed := b.stats.processed + |Good(sorted)|)
    && a.stats.inserted + Lost(b.table, sorted) == b.stats.inserted + |a.table - b.table|
  }

  ghost predicate InsertCut(b: Shot, a: Shot, sorted: seq<Row>) {
    a == b.(table := a.table) && b.table <= a.table <= b.table + Keys(Good(sorted))
  }

  ghost predicate RejectDone(b: Shot, a: Shot, rejected: seq<Row>, payloads: map<nat, Bytes>) {
    a == b.(dead := b.dead + EntriesOf(rejected, payloads),
            stats := b.stats.(deadLettered := b.stats.deadLettered + |rejected|))
  }

  ghost predicate RejectCut(b: Shot, a: Shot) {
    a == b.(dead := a.dead) && b.dead <= a.dead
  }

  ghost predicate HandOnDone(b: Shot, a: Shot, kept: seq<Row>, rows: seq<Row>) {
    a == b.(pending := b.pending - EntryIds(rows), handedOff := b.handedOff + (if kept == [] then [] else [kept]))
  }

  ghost predicate HandOnCut(b: Shot, a: Shot, kept: seq<Row>, rows: seq<Row>, faults: Faults) {
    && a == b.(pending := a.pending, handedOff := a.handedOff)
    && (faults.handOff || faults.ack.Some?)
    && b.pending - EntryIds(rows) <= a.pending <= b.pending
    && (faults.ack.None? ==> a.pending == b.pending)
    && (a.handedOff == b.handedOff || (faults.ack.Some? && a.handedOff == b.handedOff + [kept]))
  }

  lemma RowsDoneBySteps(b: Shot, m: Shot, n: Shot, a: Shot, rows: seq<Row>, payloads: map<nat, Bytes>)
    requires InsertDone(b, m, Sorted(rows)) && RejectDone(m, n, Bad(Sorted(rows)), payloads)
    requires HandOnDone(n, a, Good(Sorted(rows)), rows)
    ensures RowsDone(b, a, rows, payloads)
  {
    hide Sorted, Good, Bad, Keys, EntryIds, EntriesOf, Lost;
  }

  lemma RowsCutAtInsert(b: Shot, a: Shot, rows: seq<Row>, faults: Faults, outage: bool)
    requires InsertCut(b, a, Sorted(rows)) && outage
    ensures RowsCut(b, a, rows, faults, outage)
  {
    hide Sorted, Good, Keys, EntryIds;
  }

  lemma RowsCutAtReject(b: Shot, m: Shot, a: Shot, rows: seq<Row>, faults: Faults, outage: bool)
    requires InsertDone(b, m, Sorted(rows)) && RejectCut(m, a) && faults.reject.Some?
    ensures RowsCut(b, a, rows, faults, outage)
  {
    hide Sorted, Good, Keys, EntryIds, Lost;
  }

  lemma RowsCutAtHandOn(
      b: Shot, m: Shot, n: Shot, a: Shot, rows: seq<Row>, payloads: map<nat, Bytes>, faults: Faults, outage: bool)
    requires InsertDone(b, m, Sorted(rows)) && RejectDone(m, n, Bad(Sorted(rows)), payloads)
    requires HandOnCut(n, a, Good(Sorted(rows)), rows, faults)
    ensures RowsCut(b, a, rows, faults, outage)
  {
    hide Sorted, Good, Bad, Keys, EntryIds, EntriesOf, Lost;
  }

  lemma BatchDoneBySteps(b: Shot, m: Shot, a: Shot, decode: Decoder, entries: seq<Entry>)
    requires MalformedDone(b, m, Malformed(decode, entries))
    requires if Rows(decode, entries) == [] then a == m else RowsDone(m, a, Rows(decode, entries), Payloads(entries))
    ensures BatchDone(b, a, decode, entries)
  {
    var rows := Rows(decode, entries);
    SortedEntries(rows);
    NothingMalformed();
    hide Malformed, Rows, Sorted, Good, Bad, Keys, Ids, EntryIds, EntriesOf, Payloads, Lost;
    NothingLost(b.table, []);
    assert m.table - b.table == {};
    assert m.dead + [] == m.dead && m.handedOff + [] == m.handedOff;
  }

  lemma BatchCutEarly(b: Shot, a: Shot, decode: Decoder, entries: seq<Entry>, faults: Faults, outage: bool)
    requires MalformedCut(b, a, Malformed(decode, entries)) && faults.quarantine.Some?
    requires Ids(Malformed(decode, entries)) <= Ids(entries)
    ensures BatchCut(b, a, decode, entries, faults, outage)
  {
    hide Malformed, Rows, Sorted, Good, Keys, Ids;
  }

  lemma BatchCutLate(b: Shot, m: Shot, a: Shot, decode: Decoder, entries: seq<Entry>, faults: Faults, outage: bool)
    requires MalformedDone(b, m, Malformed(decode, entries)) && RowsCut(m, a, Rows(decode, entries), faults, outage)
    requires Ids(Malformed(decode, entries)) + EntryIds(Rows(decode, entries)) == Ids(entries)
    ensures BatchCut(b, a, decode, entries, faults, outage)
  {
    hide Malformed, Rows, Sorted, Good, Keys, Ids, EntryIds;
  }

  lemma SortedEntries(rows: seq<Row>)
    ensures EntryIds(Sorted(rows)) == EntryIds(rows)
  {
    SortedMembers(rows);
  }

  /** The step needs nothing but the phase: no command is left in it, or it is given up. */
  ghost predicate Moves(p: Pipeline.Phase, a: Pipeline.Action) {
    match a
    case Advance(_) =>
      || (p.Quarantining? && p.toAppend == {} && p.toAck == {})
      || (p.Rejecting? && p.toAppend == {})
      || (p.Acking? && p.todo == {})
    case HandOff(_) => p.HandingOff?
    case Drop(_) => !p.Counting?
    case _ => false
  }

  ghost function Moved(p: Pipeline.Phase, a: Pipeline.Action): Pipeline.Phase
    requires Moves(p, a)
  {
    match a
    case Advance(_) =>
      if p.Rejecting? then Pipeline.HandingOff(p.records)
      else if p.Quarantining? && p.records != {} then Pipeline.Inserting(p.records) else Pipeline.Idle
    case HandOff(_) => Pipeline.Acking(p.records)
    case _ => Pipeline.Idle
  }

  class BatchProcessor {
    const db: Db
    const decode: Decoder
    const worker: Pipeline.WorkerId
    /** The group's pending list. */
    var pending: set<nat>
    /** The dead-letter stream. */
    var dead: seq<Entry>
    /** The batches handed downstream. */
    var handedOff: seq<seq<Row>>
    var stats: Stats
    /** The shard's pipeline, of which this worker's commands are steps. */
    ghost var model: Pipeline.State

    constructor (db: Db, decode: Decoder, worker: Pipeline.WorkerId, pending: set<nat>, ghost model: Pipeline.State)
      requires db.table == model.table && pending == model.pel.Keys && model.dead == map[]
      ensures this.db == db && this.decode == decode && this.worker == worker && this.model == model && Coupled()
      ensures this.pending == pending && dead == [] && handedOff == [] && stats == Stats(0, 0, 0)
    {
      this.db, this.decode, this.worker, this.model := db, decode, worker, model;
      this.pending := pending;
      dead, handedOff, stats := [], [], Stats(0, 0, 0);
    }

    /** Table, pending list and dead letters are the pipeline's. */
    ghost predicate Coupled()
      reads this, db
    {
      db.table == model.table && pending == model.pel.Keys && Ids(dead) == model.dead.Keys
    }

    ghost function Now(): Shot
      reads this, db
    {
      Shot(db.table, pending, dead, handedOff, stats)
    }

    ghost function Phase(): Pipeline.Phase
      reads this
    {
      Pipeline.PhaseOf(model, worker)
    }

    /** The pipeline knows these entries by what decoding makes of them. */
    ghost predicate Known(entries: seq<Entry>)
      reads this
    {
      forall e :: e in entries ==> e.id in model.log && model.log[e.id].key == KeyOf(decode, e)
    }

    /** One step of this worker. */
    ghost method Take(a: Pipeline.Action)
      requires Pipeline.Enabled(model, a)
      modifies this`model
      ensures model == Pipeline.Step(old(model), a)
      ensures forall s :: Pipeline.Reaches(s, old(model)) ==> Pipeline.Reaches(s, model)
    {
      var before := model;
      model := Pipeline.Step(model, a);
      forall s | Pipeline.Reaches(s, before) ensures Pipeline.Reaches(s, model) {
        Pipeline.ReachesNext(s, before, a);
      }
    }

    /** XADD raw:dead of an entry, and the step it is. */
    method Append(e: Entry)
      requires Coupled() && e.id in model.log && (Phase().Quarantining? || Phase().Rejecting?)
      requires e.id in Phase().toAppend || e.id in model.dead
      modifies this`dead, this`model
      ensures Coupled() && dead == old(dead) + [e] && model.log == old(model).log
      ensures old(Phase()).Quarantining? ==>
                var p := old(Phase());
                Phase() == if e.id !in p.toAppend then p
                           else Pipeline.Quarantining(p.toAppend - {e.id}, p.toAck + {e.id}, p.records)
      ensures old(Phase()).Rejecting? ==> Phase() == Pipeline.Rejecting(old(Phase()).toAppend - {e.id}, old(Phase()).records)
      ensures e.id in model.dead && old(model).dead.Keys <= model.dead.Keys
      ensures forall s :: Pipeline.Reaches(s, old(model)) ==> Pipeline.Reaches(s, model)
    {
      hide Pipeline.Process, Pipeline.Above, Pipeline.KeysOf, Pipeline.Reaches;
      assert Ids(dead + [e]) == Ids(dead) + {e.id};
      dead := dead + [e];
      if e.id in Phase().toAppend {
        Take(Pipeline.Append(worker, e.id));
      }
    }

    /** XACK of an entry, and the step it is. */
    method Ack(id: nat)
      requires Coupled() && (Phase().Quarantining? || Phase().Acking?)
      requires Phase().Quarantining? ==> id in Phase().toAck || id !in pending
      requires Phase().Acking? ==> id in Phase().todo || id !in pending
      modifies this`pending, this`model
      ensures Coupled() && pending == old(pending) - {id} && model.log == old(model).log
      ensures model.dead == old(model).dead
      ensures old(Phase()).Quarantining? ==>
                var p := old(Phase()); Phase() == Pipeline.Quarantining(p.toAppend, p.toAck - {id}, p.records)
      ensures old(Phase()).Acking? ==> Phase() == Pipeline.Acking(old(Phase()).todo - {id})
      ensures forall s :: Pipeline.Reaches(s, old(model)) ==> Pipeline.Reaches(s, model)
    {
      hide Pipeline.Process, Pipeline.Above, Pipeline.KeysOf, Pipeline.Reaches;
      pending := pending - {id};
      if (Phase().Quarantining? && id in Phase().toAck) || (Phase().Acking? && id in Phase().todo) {
        Take(Pipeline.Ack(worker, id));
      }
    }

    /** A step that moves this worker on and touches nothing else. */
    ghost method Move(a: Pipeline.Action)
      requires Coupled() && Moves(Phase(), a) && a.w == worker
      modifies this`model
      ensures Coupled() && model == old(model).(workers := model.workers)
      ensures Phase() == Moved(old(Phase()), a)
      ensures forall s :: Pipeline.Reaches(s, old(model)) ==> Pipeline.Reaches(s, model)
    {
      hide Pipeline.Process, Pipeline.Above, Pipeline.KeysOf, Pipeline.Reaches;
      Take(a);
    }

    /** The decode loop and, after it, the normalize loop. */
    method Decode(entries: seq<Entry>) returns (malformed: seq<Entry>, rows: seq<Row>, payloads: map<nat, Bytes>)
      ensures malformed == Malformed(decode, entries) && rows == Rows(decode, entries) && payloads == Payloads(entries)
    {
      var decoded: seq<Entry> := [];
      malformed, payloads := [], map[];
      for i := 0 to |entries|
        invariant malformed == Failing(decode, entries[..i], Decoding) && decoded == Decodable(decode, entries[..i])
        invariant payloads == Payloads(entries[..i])
      {
        assert entries[..i + 1][..i] == entries[..i];
        payloads := payloads[entries[i].id := entries[i].payload];
        if decode(entries[i].payload) == Throws(Decoding) {
          malformed := malformed + [entries[i]];
        } else {
          decoded := decoded + [entries[i]];
        }
      }
      assert entries[..|entries|] == entries;
      var unfit;
      DecodableMembers(decode, entries);
      unfit, rows := Normalize(decoded);
      DecodableSuffices(decode, entries);
      malformed := malformed + unfit;
    }

    /** The normalize loop. */
    method Normalize(decoded: seq<Entry>) returns (unfit: seq<Entry>, rows: seq<Row>)
      requires forall e :: e in decoded ==> decode(e.payload) != Throws(Decoding)
      ensures unfit == Failing(decode, decoded, Normalizing) && rows == Rows(decode, decoded)
    {
      unfit, rows := [], [];
      for i := 0 to |decoded|
        invariant unfit == Failing(decode, decoded[..i], Normalizing) && rows == Rows(decode, decoded[..i])
      {
        assert decoded[..i + 1][..i] == decoded[..i];
        assert decoded[i] in decoded;
        NoRow(decode, decoded[i]);
        match RowOf(decode, decoded[i]) {
          case None => unfit := unfit + [decoded[i]];
          case Some(row) => rows := rows + [row];
        }
      }
      assert decoded[..|decoded|] == decoded;
    }

    /** One malformed entry: appended, then acknowledged, unless the pipeline is cut short before either. An entry
        that came before has been through both. */
    method QuarantineOne(e: Entry, fault: Option<nat>, command: nat) returns (ok: bool)
      requires Coupled() && e.id in model.log && Phase().Quarantining? && Phase().toAck == {}
      requires e.id !in Phase().toAppend ==> e.id in model.dead && e.id !in pending
      modifies this`dead, this`pending, this`model
      ensures Coupled() && model.log == old(model).log && old(model).dead.Keys <= model.dead.Keys
      ensures ok <==> !Cut(fault, command) && !Cut(fault, command + 1)
      ensures ok ==>
                && dead == old(dead) + [e] && pending == old(pending) - {e.id} && e.id in model.dead
                && Phase() == Pipeline.Quarantining(old(Phase()).toAppend - {e.id}, {}, old(Phase()).records)
      ensures !ok ==> Phase().Quarantining? && pending == old(pending) && (dead == old(dead) || dead == old(dead) + [e])
      ensures forall s :: Pipeline.Reaches(s, old(model)) ==> Pipeline.Reaches(s, model)
    {
      hide Pipeline.Reaches;
      ok := false;
      if Cut(fault, command) { return; }
      Append(e);
      if Cut(fault, command + 1) { return; }
      Ack(e.id);
      ok := true;
    }

    /** The pipeline that quarantines and acknowledges malformed entries, one after the other. */
    method Quarantine(malformed: seq<Entry>, fault: Option<nat>) returns (ok: bool)
      requires Coupled() && Phase().Quarantining? && Phase().toAppend == Ids(malformed) && Phase().toAck == {}
      requires forall e :: e in malformed ==> e.id in model.log
      modifies this`dead, this`pending, this`model
      ensures Coupled() && model.log == old(model).log
      ensures ok <==> fault.None?
      ensures ok ==> dead == old(dead) + malformed && pending == old(pending) - Ids(malformed)
      ensures ok ==> Phase() == Pipeline.Quarantining({}, {}, old(Phase()).records)
      ensures !ok ==> Phase().Quarantining?
      ensures old(dead) <= dead && old(pending) - Ids(malformed) <= pending <= old(pending)
      ensures forall s :: Pipeline.Reaches(s, old(model)) ==> Pipeline.Reaches(s, model)
    {
      assert old(dead) + [] == old(dead) && malformed[..0] == [] && Ids([]) == {};
      ghost var records := Phase().records;
      hide Ids, Pipeline.Reaches;
      for i := 0 to |malformed|
        invariant Coupled() && model.log == old(model).log
        invariant dead == old(dead) + malformed[..i] && pending == old(pending) - Ids(malformed[..i])
        invariant Ids(malformed[..i]) <= model.dead.Keys && Ids(malformed[..i]) <= Ids(malformed)
        invariant Phase() == Pipeline.Quarantining(Ids(malformed) - Ids(malformed[..i]), {}, records)
        invariant forall s :: Pipeline.Reaches(s, old(model)) ==> Pipeline.Reaches(s, model)
      {
        IdsGrow(malformed, i);
        var done := QuarantineOne(malformed[i], fault, 2 * i);
        if !done { return false; }
        OneMoreGone(malformed, i, old(dead), old(pending));
      }
      assert malformed[..|malformed|] == malformed;
      ok := fault.None?;
    }

    /** The pipeline that quarantines the rows the database rejected. */
    method Reject(rejected: seq<Entry>, fault: Option<nat>) returns (ok: bool)
      requires Coupled() && Phase().Rejecting? && Phase().toAppend == Ids(rejected)
      requires forall e :: e in rejected ==> e.id in model.log
      modifies this`dead, this`model
      ensures Coupled() && model.log == old(model).log
      ensures ok <==> fault.None?
      ensures ok ==> dead == old(dead) + rejected && Phase() == Pipeline.Rejecting({}, old(Phase()).records)
      ensures !ok ==> Phase().Rejecting?
      ensures old(dead) <= dead
      ensures forall s :: Pipeline.Reaches(s, old(model)) ==> Pipeline.Reaches(s, model)
    {
      assert old(dead) + [] == old(dead);
      assert rejected[..|rejected|] == rejected && Ids([]) == {};
      ghost var records := Phase().records;
      for i := 0 to |rejected|
        invariant Coupled() && model.log == old(model).log
        invariant dead == old(dead) + rejected[..i] && Ids(rejected[..i]) <= model.dead.Keys
        invariant Phase() == Pipeline.Rejecting(Ids(rejected) - Ids(rejected[..i]), records)
        invariant forall s :: Pipeline.Reaches(s, old(model)) ==> Pipeline.Reaches(s, model)
      {
        hide Pipeline.Reaches;
        IdsGrow(rejected, i);
        if Cut(fault, i) { return false; }
        Append(rejected[i]);
        assert dead == old(dead) + rejected[..i + 1];
      }
      ok := fault.None?;
    }

    /** The pipeline that acknowledges the rows' entries. */
    method AckAll(rows: seq<Row>, fault: Option<nat>) returns (ok: bool)
      requires Coupled() && Phase() == Pipeline.Acking(EntryIds(rows))
      modifies this`pending, this`model
      ensures Coupled() && model.log == old(model).log
      ensures ok <==> fault.None?
      ensures ok ==> pending == old(pending) - EntryIds(rows) && Phase() == Pipeline.Acking({})
      ensures !ok ==> Phase().Acking?
      ensures old(pending) - EntryIds(rows) <= pending <= old(pending)
      ensures forall s :: Pipeline.Reaches(s, old(model)) ==> Pipeline.Reaches(s, model)
    {
      assert rows[..|rows|] == rows && EntryIds([]) == {};
      for i := 0 to |rows|
        invariant Coupled() && model.log == old(model).log && pending == old(pending) - EntryIds(rows[..i])
        invariant Phase() == Pipeline.Acking(EntryIds(rows) - EntryIds(rows[..i]))
        invariant forall s :: Pipeline.Reaches(s, old(model)) ==> Pipeline.Reaches(s, model)
      {
        hide Pipeline.Reaches;
        assert rows[..i + 1] == rows[..i] + [rows[i]];
        assert EntryIds(rows[..i + 1]) == EntryIds(rows[..i]) + {rows[i].entry};
        assert rows[i] in rows && EntryIds(rows[..i + 1]) <= EntryIds(rows);
        if Cut(fault, i) { return false; }
        Ack(rows[i].entry);
      }
      ok := fault.None?;
    }

    /** The bisecting insert, as steps of the pipeline. */
    method InsertRows(sorted: seq<Row>) returns (written: Isolated)
      requires Coupled() && Phase().Inserting? && Pipeline.RowsOf(model.log, Phase().records, sorted)
      modifies this`model, this`stats, db
      ensures Coupled() && model.log == old(model).log
      ensures written.RetryBatch? ==> db.outage.Some? && Phase() == old(Phase()) && InsertCut(old(Now()), Now(), sorted)
      ensures written.Isolated? ==>
                && written.kept == Good(sorted) && written.rejected == Bad(sorted) && InsertDone(old(Now()), Now(), sorted)
                && Phase() == Pipeline.Rejecting(EntryIds(Bad(sorted)), old(Phase()).records)
      ensures forall s :: Pipeline.Reaches(s, old(model)) ==> Pipeline.Reaches(s, model)
    {
      hide Pipeline.Process, Pipeline.Above, Pipeline.KeysOf, Pipeline.Reaches, Keys, Good, Bad, Lost, Statements;
      written := WriteIsolatingBadRows(db, sorted);
      Pipeline.BisectionIsInsertSteps(model, worker, sorted, db.table);
      Take(Pipeline.InsertSome(worker, db.table - model.table));
      if written.Isolated? {
        stats := stats.(inserted := stats.inserted + written.inserted, processed := stats.processed + |written.kept|);
        SameEntries(Bad(sorted));
        Take(Pipeline.InsertDone(worker, EntryIds(Bad(sorted))));
      }
    }

    /**
     * process(), as a stretch of steps of the pipeline: what it does, done or broken off at any point, is what the
     * pipeline's theorems are about.
     */
    method Process(entries: seq<Entry>, faults: Faults) returns (ok: bool)
      requires Coupled() && Known(entries) && Phase() == Pipeline.Process(model.log, Ids(entries))
      modifies this, db
      ensures Coupled() && Pipeline.Reaches(old(model), model) && Phase().Idle?
      ensures if ok then BatchDone(old(Now()), Now(), decode, entries)
              else BatchCut(old(Now()), Now(), decode, entries, faults, db.outage.Some?)
    {
      Pipeline.ReachesItself(model);
      BatchInPipeline(model.log, decode, entries);
      hide Malformed, Rows, Sorted, Ids, EntryIds, KeyOf, MalformedDone, MalformedCut, RowsDone, RowsCut, BatchDone, BatchCut;
      hide Pipeline.Process, Pipeline.Reaches, Pipeline.RowsOf;
      var malformed, rows, payloads := Decode(entries);
      if entries == [] {
        EmptyBatchDone(Now(), decode);
        return true;
      }
      ok := ProcessMalformed(malformed, faults.quarantine);
      if !ok {
        BatchCutEarly(old(Now()), Now(), decode, entries, faults, db.outage.Some?);
        return;
      }
      ghost var middle := Now();
      if rows != [] {
        ok := ProcessRows(rows, payloads, faults);
        if !ok {
          BatchCutLate(old(Now()), middle, Now(), decode, entries, faults, db.outage.Some?);
          return;
        }
      }
      BatchDoneBySteps(old(Now()), middle, Now(), decode, entries);
    }

    /** The malformed entries, if there are any. */
    method ProcessMalformed(malformed: seq<Entry>, fault: Option<nat>) returns (ok: bool)
      requires Coupled() && Phase().Quarantining? && Phase().toAppend == Ids(malformed) && Phase().toAck == {}
      requires forall e :: e in malformed ==> e.id in model.log
      modifies this`dead, this`pending, this`stats, this`model
      ensures Coupled() && model.log == old(model).log
      ensures if ok then MalformedDone(old(Now()), Now(), malformed) else MalformedCut(old(Now()), Now(), malformed)
      ensures ok ==> Phase() == if old(Phase()).records == {} then Pipeline.Idle else Pipeline.Inserting(old(Phase()).records)
      ensures !ok ==> Phase().Idle? && fault.Some?
      ensures forall s :: Pipeline.Reaches(s, old(model)) ==> Pipeline.Reaches(s, model)
    {
      assert Ids([]) == {} && old(dead) + [] == old(dead);
      hide Ids, Pipeline.Reaches;
      ok := true;
      if malformed != [] {
        ok := Quarantine(malformed, fault);
        if ok { stats := stats.(deadLettered := stats.deadLettered + |malformed|); }
      }
      Move(if ok then Pipeline.Advance(worker) else Pipeline.Drop(worker));
    }

    /** The second half of process(), once the malformed entries are out of the way. */
    method ProcessRows(rows: seq<Row>, payloads: map<nat, Bytes>, faults: Faults) returns (ok: bool)
      requires Coupled() && rows != [] && Phase() == Pipeline.Inserting(EntryIds(rows))
      requires Pipeline.RowsOf(model.log, EntryIds(rows), Sorted(rows))
      modifies this, db
      ensures Coupled() && Phase().Idle?
      ensures forall s :: Pipeline.Reaches(s, old(model)) ==> Pipeline.Reaches(s, model)
      ensures if ok then RowsDone(old(Now()), Now(), rows, payloads)
              else RowsCut(old(Now()), Now(), rows, faults, db.outage.Some?)
    {
      RejectedKnown(model.log, EntryIds(rows), Sorted(rows), payloads);
      hide Sorted, Good, Bad, Keys, Ids, EntryIds, EntriesOf, Lost, RowsDone, RowsCut;
      hide InsertDone, InsertCut, RejectDone, RejectCut, HandOnDone, HandOnCut, Pipeline.Reaches, Pipeline.RowsOf;
      ghost var b, outage := Now(), db.outage.Some?;
      ok := false;
      var written := InsertRows(Sorted(rows));
      if written.RetryBatch? {
        Move(Pipeline.Drop(worker));
        RowsCutAtInsert(b, Now(), rows, faults, outage);
        return;
      }
      ghost var m := Now();
      ok := RejectRows(written.rejected, EntryIds(rows), payloads, faults);
      if !ok {
        RowsCutAtReject(b, m, Now(), rows, faults, outage);
        return;
      }
      ghost var n := Now();
      ok := HandOn(written.kept, rows, faults);
      if ok {
        RowsDoneBySteps(b, m, n, Now(), rows, payloads);
      } else {
        RowsCutAtHandOn(b, m, n, Now(), rows, payloads, faults, outage);
      }
    }

    /** The rejected rows, if there are any. */
    method RejectRows(rejected: seq<Row>, ghost records: set<nat>, payloads: map<nat, Bytes>, faults: Faults) returns (ok: bool)
      requires Coupled() && Phase() == Pipeline.Rejecting(EntryIds(rejected), records)
      requires Ids(EntriesOf(rejected, payloads)) == EntryIds(rejected)
      requires forall e :: e in EntriesOf(rejected, payloads) ==> e.id in model.log
      modifies this`dead, this`stats, this`model
      ensures Coupled() && model.log == old(model).log
      ensures if ok then RejectDone(old(Now()), Now(), rejected, payloads) else RejectCut(old(Now()), Now())
      ensures if ok then Phase() == Pipeline.HandingOff(records) else Phase().Idle? && faults.reject.Some?
      ensures forall s :: Pipeline.Reaches(s, old(model)) ==> Pipeline.Reaches(s, model)
    {
      NothingMalformed();
      hide Ids, EntryIds, EntriesOf, Pipeline.Reaches;
      assert old(dead) + [] == old(dead);
      if rejected != [] {
        var done := Reject(EntriesOf(rejected, payloads), faults.reject);
        if !done {
          Move(Pipeline.Drop(worker));
          return false;
        }
        stats := stats.(deadLettered := stats.deadLettered + |rejected|);
      }
      Move(Pipeline.Advance(worker));
      ok := true;
    }

    /** The hand-off, if there is anything to hand on, and the acknowledgement of every row's entry. */
    method HandOn(kept: seq<Row>, rows: seq<Row>, faults: Faults) returns (ok: bool)
      requires Coupled() && Phase() == Pipeline.HandingOff(EntryIds(rows))
      modifies this`pending, this`handedOff, this`model
      ensures Coupled() && Phase().Idle?
      ensures ok <==> (kept == [] || !faults.handOff) && faults.ack.None?
      ensures if ok then HandOnDone(old(Now()), Now(), kept, rows) else HandOnCut(old(Now()), Now(), kept, rows, faults)
      ensures forall s :: Pipeline.Reaches(s, old(model)) ==> Pipeline.Reaches(s, model)
    {
      hide EntryIds, Pipeline.Reaches;
      assert old(handedOff) + [] == old(handedOff);
      if kept != [] {
        if faults.handOff {
          Move(Pipeline.Drop(worker));
          return false;
        }
        handedOff := handedOff + [kept];
      }
      Move(Pipeline.HandOff(worker));
      ok := AckAll(rows, faults.ack);
      Move(if ok then Pipeline.Advance(worker) else Pipeline.Drop(worker));
    }
  }

  lemma EmptyBatchDone(b: Shot, decode: Decoder)
    ensures BatchDone(b, b, decode, [])
  {
    NothingMalformed();
    NothingLost(b.table, []);
    assert Malformed(decode, []) == [] && Ids([]) == {} && b.table - b.table == {};
    assert b.dead + [] == b.dead && b.handedOff + [] == b.handedOff;
  }

  lemma IdsGrow(entries: seq<Entry>, i: nat)
    requires i < |entries|
    ensures Ids(entries[..i + 1]) == Ids(entries[..i]) + {entries[i].id}
    ensures entries[i] in entries && Ids(entries[..i + 1]) <= Ids(entries)
  {
    assert entries[..i + 1] == entries[..i] + [entries[i]];
  }

  lemma OneMoreGone(entries: seq<Entry>, i: nat, dead: seq<Entry>, pending: set<nat>)
    requires i < |entries|
    ensures dead + entries[..i] + [entries[i]] == dead + entries[..i + 1]
    ensures pending - Ids(entries[..i]) - {entries[i].id} == pending - Ids(entries[..i + 1])
    ensures Ids(entries) - Ids(entries[..i]) - {entries[i].id} == Ids(entries) - Ids(entries[..i + 1])
  {
    IdsGrow(entries, i);
  }

  lemma SameEntries(rows: seq<Row>)
    ensures Pipeline.Entries(rows) == EntryIds(rows)
  {
  }

  lemma RejectedKnown(
      log: map<nat, Pipeline.Payload>, records: set<nat>, sorted: seq<Row>, payloads: map<nat, Bytes>)
    requires Pipeline.RowsOf(log, records, sorted)
    ensures var rejected := EntriesOf(Bad(sorted), payloads);
      && Ids(rejected) == EntryIds(Bad(sorted))
      && forall e :: e in rejected ==> e.id in log
  {
    var bad, rejected := Bad(sorted), EntriesOf(Bad(sorted), payloads);
    GoodMembers(sorted);
    assert forall i :: 0 <= i < |bad| ==> rejected[i].id == bad[i].entry && rejected[i] in rejected && bad[i] in bad;
  }

  /** What the pipeline's process() starts from is what decoding finds. */
  lemma BatchInPipeline(log: map<nat, Pipeline.Payload>, decode: Decoder, entries: seq<Entry>)
    requires forall e :: e in entries ==> e.id in log && log[e.id].key == KeyOf(decode, e)
    ensures var malformed, rows := Malformed(decode, entries), Rows(decode, entries);
      && (forall e :: e in malformed ==> e in entries)
      && Ids(malformed) + EntryIds(rows) == Ids(entries)
      && (rows == [] <==> EntryIds(rows) == {}) && EntryIds(Sorted(rows)) == EntryIds(rows)
      && (malformed == [] ==> Ids(malformed) == {})
      && Pipeline.RowsOf(log, EntryIds(rows), Sorted(rows))
      && Pipeline.Process(log, Ids(entries)) ==
         if entries == [] then Pipeline.Idle else Pipeline.Quarantining(Ids(malformed), {}, EntryIds(rows))
  {
    var malformed, rows := Malformed(decode, entries), Rows(decode, entries);
    EntriesSplit(decode, entries);
    SortedMembers(rows);
    hide Malformed, Rows, Sorted;
    assert EntryIds(Sorted(rows)) == EntryIds(rows);
    forall id | id in Ids(entries) ensures id in Ids(malformed) || id in EntryIds(rows) {
      var e :| e in entries && e.id == id;
      if RowOf(decode, e).Some? {
        assert RowOf(decode, e).value in rows;
      }
    }
    forall r | r in rows ensures r.entry in log && log[r.entry].key == Some(r.key) && r.entry in Ids(entries) {
      var e :| e in entries && RowOf(decode, e) == Some(r);
    }
    assert Pipeline.Malformed(log, Ids(entries)) == Ids(malformed) by {
      forall e | e in malformed ensures log[e.id].key.None? {
      }
    }
    assert Ids(entries) - Ids(malformed) == EntryIds(rows);
    if entries != [] {
      assert entries[0].id in Ids(entries);
    }
    if rows != [] {
      assert rows[0].entry in EntryIds(rows);
    }
  }

  lemma NothingMalformed()
    ensures Sorted([]) == [] && Good([]) == [] && Bad([]) == [] && Keys([]) == {} && EntryIds([]) == {}
    ensures forall payloads :: EntriesOf([], payloads) == []
  {
  }

  /** What a batch leaves behind when process() returns: every entry is off the pending list, and its row is in the
      table or the entry itself, with its original bytes, is in the dead-letter stream. */
  lemma ProcessedEntriesAreSettled(b: Shot, a: Shot, decode: Decoder, entries: seq<Entry>, e: Entry)
    requires BatchDone(b, a, decode, entries) && DistinctIds(entries) && e in entries
    ensures e.id !in a.pending
    ensures match RowOf(decode, e)
            case None => e in a.dead
            case Some(row) => if row.acceptable then row.key in a.table else e in a.dead
  {
    var rows := Sorted(Rows(decode, entries));
    EntriesSplit(decode, entries);
    SortedMembers(Rows(decode, entries));
    GoodMembers(rows);
    hide Malformed, Rows, Sorted, Good, Bad, Payloads, Lost;
    match RowOf(decode, e) {
      case None => assert e in Malformed(decode, entries);
      case Some(row) =>
        assert row in rows;
        if !row.acceptable {
          var i :| 0 <= i < |Bad(rows)| && Bad(rows)[i] == row;
          PayloadLookup(entries, e);
          assert EntriesOf(Bad(rows), Payloads(entries))[i] == e;
        }
    }
  }
}
