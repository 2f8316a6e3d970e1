/**
 * The per-shard cache that resolves which AVL dictionary decodes a device. It reads a Redis hash at
 * most once per device and TTL, keeps the last good answer through an outage, and reports devices
 * that decode on the fallback table.
 */
module AvlTables {
  import opened Options

  type DeviceId = nat
  type Table = string

  datatype Reason = NoConfig | NoField | Malformed | UnknownTable | RedisError

  const FALLBACK: Table := "fmb120"

  /** The generated catalogue: upper-case model code to the table that decodes it. */
  datatype Catalogue = Catalogue(models: map<string, Table>, upper: string -> string, lower: string -> string)
  {
    /** Every table that ships. */
    function Shipped(): set<Table> {
      models.Values
    }

    /** A model code, or else a table name. */
    function Find(name: string): Option<Table> {
      if upper(name) in models then Some(models[upper(name)])
      else if lower(name) in Shipped() then Some(lower(name))
      else None
    }
  }

  /** A value of the device:config hash, as far as JSON.parse and the avlTable field go. */
  datatype Raw = Broken | NotAnObject | Object(avlTable: Option<string>)

  datatype Resolved = Resolved(table: Table, reason: Option<Reason>)

  function ParseTable(cat: Catalogue, raw: Option<Raw>): Resolved {
    match raw
    case None => Resolved(FALLBACK, Some(NoConfig))
    case Some(Broken) => Resolved(FALLBACK, Some(Malformed))
    case Some(NotAnObject) => Resolved(FALLBACK, Some(Malformed))
    case Some(Object(None)) => Resolved(FALLBACK, Some(NoField))
    case Some(Object(Some(name))) =>
      match cat.Find(name)
      case None => Resolved(FALLBACK, Some(UnknownTable))
      case Some(table) => Resolved(table, None)
  }

  datatype Entry = Entry(table: Table, at: nat, reason: Option<Reason>, reportedAt: Option<nat>)

  type Cache = map<DeviceId, Entry>

  /** What HMGET answered: the hash values present, or nothing at all during an outage. */
  type Answer = Option<map<DeviceId, Raw>>

  function Lookup<V>(m: map<DeviceId, V>, id: DeviceId): Option<V> {
    if id in m then Some(m[id]) else None
  }

  predicate Stale(e: Option<Entry>, ttl: nat, now: nat) {
    e.None? || now >= e.value.at + ttl
  }

  predicate ReportDue(e: Option<Entry>, ttl: nat, now: nat) {
    e.None? || e.value.reportedAt.None? || now >= e.value.reportedAt.value + ttl
  }

  datatype Refresh = Refresh(entry: Option<Entry>, report: Option<Reason>)

  /** One device through one batch. */
  function RefreshOne(cat: Catalogue, ttl: nat, e: Option<Entry>, id: DeviceId, answer: Answer, now: nat): Refresh {
    if !Stale(e, ttl, now) then Refresh(e, None)
    else
      match answer
      case None =>
        var reason := if e.None? then Some(RedisError) else e.value.reason;
        if reason.Some? && ReportDue(e, ttl, now) then
          Refresh(if e.None? then None else Some(e.value.(reportedAt := Some(now))), reason)
        else Refresh(e, None)
      case Some(values) =>
        var r := ParseTable(cat, Lookup(values, id));
        var due := r.reason.Some? && ReportDue(e, ttl, now);
        var reportedAt := if due then Some(now) else if e.None? then None else e.value.reportedAt;
        Refresh(Some(Entry(r.table, now, r.reason, reportedAt)), if due then r.reason else None)
  }

  /** The cache after one batch, device by device. */
  ghost predicate Refreshed(cat: Catalogue, ttl: nat, cache: Cache, ids: set<DeviceId>, answer: Answer, now: nat, after: Cache) {
    forall id :: Lookup(after, id) ==
      if id in ids then RefreshOne(cat, ttl, Lookup(cache, id), id, answer, now).entry else Lookup(cache, id)
  }

  class AvlTableCache {
    var cache: Cache
    const cat: Catalogue
    const ttl: nat

    constructor (cat: Catalogue, ttl: nat := 60_000)
      ensures cache == map[] && this.cat == cat && this.ttl == ttl
    {
      cache := map[];
      this.cat := cat;
      this.ttl := ttl;
    }

    /** The refresh of one stale device: the cache entry, and the fallback to report. */
    method RefreshStale(id: DeviceId, now: nat, answer: Answer) returns (report: Option<Reason>)
      requires Stale(Lookup(cache, id), ttl, now)
      modifies this
      ensures var r := RefreshOne(cat, ttl, Lookup(old(cache), id), id, answer, now);
        report == r.report && forall x :: Lookup(cache, x) == if x == id then r.entry else Lookup(old(cache), x)
    {
      hide ParseTable;
      var cached := Lookup(cache, id);
      var r := if answer.None? then Resolved(FALLBACK, Some(RedisError)) else ParseTable(cat, Lookup(answer.value, id));
      var reason := if answer.None? && cached.Some? then cached.value.reason else r.reason;
      var due := reason.Some? &&
        (cached.None? || cached.value.reportedAt.None? || now >= cached.value.reportedAt.value + ttl);
      report := if due then reason else None;
      if due && cached.Some? { cache := cache[id := cached.value.(reportedAt := Some(now))]; }
      if answer.Some? {
        var reportedAt := if due then Some(now) else if cached.Some? then cached.value.reportedAt else None;
        cache := cache[id := Entry(r.table, now, r.reason, reportedAt)];
      }
    }

    /** `answer` is what Redis gives if it is asked; `reports` are the fallbacks counted. */
    method ResolveBatch(deviceIds: seq<DeviceId>, now: nat, answer: Answer)
      returns (out: map<DeviceId, Table>, reports: map<DeviceId, Reason>)
      modifies this
      ensures var ids := set id | id in deviceIds;
        && Refreshed(cat, ttl, old(cache), ids, answer, now, cache)
        && out.Keys == ids
        && (forall id :: id in ids ==> out[id] == if id in cache then cache[id].table else FALLBACK)
        && (forall id :: Lookup(reports, id) ==
              if id in ids then RefreshOne(cat, ttl, Lookup(old(cache), id), id, answer, now).report else None)
    {
      hide ParseTable;
      var ids := set id | id in deviceIds;
      var stale := set id | id in ids && Stale(Lookup(cache, id), ttl, now);
      reports := map[];
      var todo := stale;
      while todo != {}
        invariant todo <= stale
        invariant forall id :: Lookup(cache, id) ==
                    if id in stale && id !in todo
                    then RefreshOne(cat, ttl, Lookup(old(cache), id), id, answer, now).entry
                    else Lookup(old(cache), id)
        invariant forall id :: Lookup(reports, id) ==
                    if id in stale && id !in todo
                    then RefreshOne(cat, ttl, Lookup(old(cache), id), id, answer, now).report
                    else None
      {
        var id :| id in todo;
        todo := todo - {id};
        var report := RefreshStale(id, now, answer);
        if report.Some? { reports := reports[id := report.value]; }
      }
      out := map[];
      var left := ids;
      while left != {}
        invariant left <= ids && out.Keys == ids - left
        invariant forall id :: id in out ==> out[id] == if id in cache then cache[id].table else FALLBACK
      {
        var id :| id in left;
        out := out[id := if id in cache then cache[id].table else FALLBACK];
        left := left - {id};
      }
    }
  }

  // ----- histories -----

  /** One call of resolveBatch, with what Redis would answer. */
  datatype Call = Call(ids: set<DeviceId>, now: nat, answer: Answer)

  /** One device's entry after a history of calls; a call that does not name it leaves it alone. */
  function EntryAfter(cat: Catalogue, ttl: nat, calls: seq<Call>, id: DeviceId): Option<Entry> {
    if calls == [] then None
    else
      var n := |calls| - 1;
      var e := EntryAfter(cat, ttl, calls[..n], id);
      if id in calls[n].ids then RefreshOne(cat, ttl, e, id, calls[n].answer, calls[n].now).entry else e
  }

  /** A cache through its life: empty at first, and refreshed by one call after the other. */
  ghost predicate IsHistory(cat: Catalogue, ttl: nat, caches: seq<Cache>, calls: seq<Call>) {
    && |caches| == |calls| + 1 && caches[0] == map[]
    && forall k :: 0 <= k < |calls| ==>
         Refreshed(cat, ttl, caches[k], calls[k].ids, calls[k].answer, calls[k].now, caches[k + 1])
  }

  /** After any history of calls the cache holds for each device what the calls naming that device determine. */
  lemma {:induction false} CacheFollowsHistory(cat: Catalogue, ttl: nat, caches: seq<Cache>, calls: seq<Call>, k: nat)
    requires IsHistory(cat, ttl, caches, calls) && k < |caches|
    ensures forall id :: Lookup(caches[k], id) == EntryAfter(cat, ttl, calls[..k], id)
  {
    hide RefreshOne;
    if k > 0 {
      CacheFollowsHistory(cat, ttl, caches, calls, k - 1);
      assert calls[..k][..k - 1] == calls[..k - 1];
      assert Refreshed(cat, ttl, caches[k - 1], calls[k - 1].ids, calls[k - 1].answer, calls[k - 1].now, caches[k]);
    }
  }

  /** The table call `i` answers for `id`. */
  function Served(cat: Catalogue, ttl: nat, calls: seq<Call>, i: nat, id: DeviceId): Table
    requires i < |calls|
  {
    match EntryAfter(cat, ttl, calls[..i + 1], id)
    case None => FALLBACK
    case Some(e) => e.table
  }

  /** Call `i` counts a fallback of `id`. */
  predicate Reports(cat: Catalogue, ttl: nat, calls: seq<Call>, i: nat, id: DeviceId)
    requires i < |calls|
  {
    && id in calls[i].ids
    && RefreshOne(cat, ttl, EntryAfter(cat, ttl, calls[..i], id), id, calls[i].answer, calls[i].now).report.Some?
  }

  ghost predicate Nondecreasing(calls: seq<Call>) {
    forall i, j :: 0 <= i < j < |calls| ==> calls[i].now <= calls[j].now
  }

  /** Redis would have answered this call for `id`. */
  predicate Answerable(calls: seq<Call>, k: nat, id: DeviceId)
    requires k < |calls|
  {
    id in calls[k].ids && calls[k].answer.Some?
  }

  /** `e` was read by call `j`, and since then no answerable call found it a TTL old. */
  ghost predicate ReadAt(cat: Catalogue, ttl: nat, calls: seq<Call>, id: DeviceId, j: nat, table: Table, reason: Option<Reason>)
    requires j < |calls|
  {
    && Answerable(calls, j, id)
    && ParseTable(cat, Lookup(calls[j].answer.value, id)) == Resolved(table, reason)
    && forall k :: j < k < |calls| && Answerable(calls, k, id) ==> calls[k].now < calls[j].now + ttl
  }

  ghost predicate EntryExplained(cat: Catalogue, ttl: nat, calls: seq<Call>, id: DeviceId, e: Option<Entry>) {
    match e
    case None => forall k :: 0 <= k < |calls| ==> !Answerable(calls, k, id)
    case Some(e) => exists j :: 0 <= j < |calls| && e.at == calls[j].now && ReadAt(cat, ttl, calls, id, j, e.table, e.reason)
  }

  lemma {:induction false} EntriesExplained(cat: Catalogue, ttl: nat, calls: seq<Call>, id: DeviceId)
    ensures EntryExplained(cat, ttl, calls, id, EntryAfter(cat, ttl, calls, id))
  {
    if calls != [] {
      var n := |calls| - 1;
      var front := calls[..n];
      EntriesExplained(cat, ttl, front, id);
      var e := EntryAfter(cat, ttl, front, id);
      var e' := EntryAfter(cat, ttl, calls, id);
      if id in calls[n].ids && Stale(e, ttl, calls[n].now) && calls[n].answer.Some? {
        assert ReadAt(cat, ttl, calls, id, n, e'.value.table, e'.value.reason);
      } else {
        KeptExplained(cat, ttl, calls, id, e, e');
      }
    }
  }

  /** An entry that the last call did not replace is explained as before. */
  lemma KeptExplained(cat: Catalogue, ttl: nat, calls: seq<Call>, id: DeviceId, e: Option<Entry>, e': Option<Entry>)
    requires calls != [] && EntryExplained(cat, ttl, calls[..|calls| - 1], id, e)
    requires e.None? <==> e'.None?
    requires e.Some? ==> e'.value.at == e.value.at && e'.value.table == e.value.table && e'.value.reason == e.value.reason
    requires Answerable(calls, |calls| - 1, id) ==> !Stale(e, ttl, calls[|calls| - 1].now)
    ensures EntryExplained(cat, ttl, calls, id, e')
  {
    var n := |calls| - 1;
    var front := calls[..n];
    assert forall k :: 0 <= k < n ==> Answerable(front, k, id) == Answerable(calls, k, id);
    if e.Some? {
      var j :| 0 <= j < n && e.value.at == front[j].now && ReadAt(cat, ttl, front, id, j, e.value.table, e.value.reason);
      assert ReadAt(cat, ttl, calls, id, j, e'.value.table, e'.value.reason);
    }
  }

  /**
   * What a device is decoded with. Either no call naming it was ever answered and it gets the
   * fallback, or it gets what Redis held for it at some answered call `j`, and no answered call since
   * came a TTL or more after `j`: while Redis answers the table is less than one TTL old, and
   * through an outage it is the last one read.
   */
  lemma ServedIsLastGood(cat: Catalogue, ttl: nat, calls: seq<Call>, i: nat, id: DeviceId)
    requires i < |calls| && id in calls[i].ids
    ensures var upTo := calls[..i + 1];
      || (Served(cat, ttl, calls, i, id) == FALLBACK && forall k :: 0 <= k <= i ==> !Answerable(calls, k, id))
      || exists j, reason :: 0 <= j <= i && ReadAt(cat, ttl, upTo, id, j, Served(cat, ttl, calls, i, id), reason)
  {
    var upTo := calls[..i + 1];
    EntriesExplained(cat, ttl, upTo, id);
    assert forall k :: 0 <= k <= i ==> Answerable(upTo, k, id) == Answerable(calls, k, id);
  }

  /** A device gets a table without a fallback exactly when its configuration names one: by a model code in any
      case, or else by the name of a table that ships; and a fallback says which step failed. */
  lemma TableIsNamed(cat: Catalogue, raw: Option<Raw>, table: Table)
    ensures ParseTable(cat, raw) == Resolved(table, None) <==>
      && raw.Some? && raw.value.Object? && raw.value.avlTable.Some?
      && var name := raw.value.avlTable.value;
         if cat.upper(name) in cat.models then table == cat.models[cat.upper(name)]
         else table == cat.lower(name) && exists model :: model in cat.models && cat.models[model] == table
    ensures var r := ParseTable(cat, raw);
      && (r.reason == Some(NoConfig) <==> raw.None?)
      && (r.reason == Some(Malformed) <==> raw.Some? && !raw.value.Object?)
      && (r.reason == Some(NoField) <==> raw.Some? && raw.value.Object? && raw.value.avlTable.None?)
      && r.reason != Some(RedisError)
  {
  }

  /** Call `i` asks Redis for `id`. */
  predicate Asks(cat: Catalogue, ttl: nat, calls: seq<Call>, i: nat, id: DeviceId)
    requires i < |calls|
  {
    id in calls[i].ids && Stale(EntryAfter(cat, ttl, calls[..i], id), ttl, calls[i].now)
  }

  lemma {:induction false} ReadingTimeGrows(cat: Catalogue, ttl: nat, calls: seq<Call>, a: nat, b: nat, id: DeviceId)
    requires a < b <= |calls| && Nondecreasing(calls) && Asks(cat, ttl, calls, a, id) && calls[a].answer.Some?
    ensures var e := EntryAfter(cat, ttl, calls[..b], id); e.Some? && e.value.at >= calls[a].now
  {
    hide ParseTable;
    assert calls[..b][..b - 1] == calls[..b - 1];
    if b > a + 1 {
      ReadingTimeGrows(cat, ttl, calls, a, b - 1, id);
    }
  }

  /** A device is asked for at most once per TTL, as long as Redis answers. */
  lemma AsksAreSpaced(cat: Catalogue, ttl: nat, calls: seq<Call>, a: nat, b: nat, id: DeviceId)
    requires a < b < |calls| && Nondecreasing(calls)
    requires Asks(cat, ttl, calls, a, id) && Asks(cat, ttl, calls, b, id) && calls[a].answer.Some?
    ensures calls[b].now >= calls[a].now + ttl
  {
    ReadingTimeGrows(cat, ttl, calls, a, b, id);
  }

  lemma ParsedIsShipped(cat: Catalogue, raw: Option<Raw>)
    requires FALLBACK in cat.Shipped()
    ensures ParseTable(cat, raw).table in cat.Shipped()
    ensures ParseTable(cat, raw).reason.Some? ==> ParseTable(cat, raw).table == FALLBACK
  {
  }

  /** Whatever Redis holds and however often it fails, every device is answered with a table that ships. */
  lemma ServedIsShipped(cat: Catalogue, ttl: nat, calls: seq<Call>, i: nat, id: DeviceId)
    requires i < |calls| && id in calls[i].ids && FALLBACK in cat.Shipped()
    ensures Served(cat, ttl, calls, i, id) in cat.Shipped()
  {
    hide ParseTable;
    ServedIsLastGood(cat, ttl, calls, i, id);
    var upTo, table := calls[..i + 1], Served(cat, ttl, calls, i, id);
    if exists j, reason :: 0 <= j <= i && ReadAt(cat, ttl, upTo, id, j, table, reason) {
      var j, reason :| 0 <= j <= i && ReadAt(cat, ttl, upTo, id, j, table, reason);
      ParsedIsShipped(cat, Lookup(upTo[j].answer.value, id));
    }
  }

  // ----- reports -----

  /** A cached entry remembers the last report made since the device was cached. */
  lemma {:induction false} LastReportRemembered(cat: Catalogue, ttl: nat, calls: seq<Call>, a: nat, b: nat, id: DeviceId)
    requires a < b <= |calls| && Nondecreasing(calls) && Reports(cat, ttl, calls, a, id)
    requires EntryAfter(cat, ttl, calls[..a + 1], id).Some?
    ensures var e := EntryAfter(cat, ttl, calls[..b], id);
      e.Some? && e.value.reportedAt.Some? && e.value.reportedAt.value >= calls[a].now
  {
    hide ParseTable;
    assert calls[..b][..b - 1] == calls[..b - 1];
    if b == a + 1 {
      assert calls[..b][..a] == calls[..a];
    } else {
      LastReportRemembered(cat, ttl, calls, a, b - 1, id);
    }
  }

  /** Two fallback reports of a device that was cached at the first are at least a TTL apart. */
  lemma ReportsAreSpaced(cat: Catalogue, ttl: nat, calls: seq<Call>, a: nat, b: nat, id: DeviceId)
    requires a < b < |calls| && Nondecreasing(calls)
    requires Reports(cat, ttl, calls, a, id) && Reports(cat, ttl, calls, b, id)
    requires exists k :: 0 <= k <= a && Answerable(calls, k, id)
    ensures calls[b].now >= calls[a].now + ttl
  {
    var upTo := calls[..a + 1];
    EntriesExplained(cat, ttl, upTo, id);
    var k :| 0 <= k <= a && Answerable(calls, k, id);
    assert Answerable(upTo, k, id);
    LastReportRemembered(cat, ttl, calls, a, b, id);
  }

  /** No fallback goes unreported for a TTL: a call that finds the entry stale and leaves the device on a
      fallback with a reason either reports it or comes less than a TTL after a report. */
  lemma FallbackIsReported(cat: Catalogue, ttl: nat, calls: seq<Call>, b: nat, id: DeviceId)
    requires b < |calls| && id in calls[b].ids
    requires Stale(EntryAfter(cat, ttl, calls[..b], id), ttl, calls[b].now)
    requires var e := EntryAfter(cat, ttl, calls[..b + 1], id); e.None? || e.value.reason.Some?
    ensures || Reports(cat, ttl, calls, b, id)
            || exists a :: 0 <= a < b && Reports(cat, ttl, calls, a, id) && calls[b].now < calls[a].now + ttl
  {
    hide ParseTable;
    assert calls[..b + 1][..b] == calls[..b];
    if !Reports(cat, ttl, calls, b, id) {
      ReportedAtIsReport(cat, ttl, calls, b, id);
    }
  }

  lemma {:induction false} ReportedAtIsReport(cat: Catalogue, ttl: nat, calls: seq<Call>, n: nat, id: DeviceId)
    requires n <= |calls|
    ensures var e := EntryAfter(cat, ttl, calls[..n], id);
      e.Some? && e.value.reportedAt.Some? ==>
      exists a :: 0 <= a < n && Reports(cat, ttl, calls, a, id) && calls[a].now == e.value.reportedAt.value
  {
    hide ParseTable;
    if n > 0 {
      assert calls[..n][..n - 1] == calls[..n - 1];
      ReportedAtIsReport(cat, ttl, calls, n - 1, id);
      var e, e' := EntryAfter(cat, ttl, calls[..n - 1], id), EntryAfter(cat, ttl, calls[..n], id);
      if e'.Some? && e'.value.reportedAt.Some? {
        if Reports(cat, ttl, calls, n - 1, id) {
          assert calls[n - 1].now == e'.value.reportedAt.value;
        } else {
          assert e.Some? && e.value.reportedAt == e'.value.reportedAt;
        }
      }
    }
  }
}
