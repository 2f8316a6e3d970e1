/**
 * The live marker of a device: a Redis hash updated max-wins on the device's fix time. Calls of
 * apply overlap freely; within one process a per-device promise chain keeps the
 * read-compare-write of one call from interleaving with another's. A Redis command can fail, and a
 * failed command may or may not have taken effect.
 */
module LiveState {
  import opened Options

  type DeviceId = nat

  const MAX_CLOCK_SKEW_MS := 5 * 60_000

  datatype Record = Record(fixTime: int, serverTime: int, fixValid: bool, lat: int, lon: int)
  {
    predicate Skewed() {
      fixTime > serverTime + MAX_CLOCK_SKEW_MS
    }

    predicate Placeable() {
      fixValid && !(lat == 0 && lon == 0)
    }
  }

  datatype Fix = Fix(lat: int, lon: int, fixTime: int)

  /** The parts of the published JSON that are read back. */
  datatype Compact = Compact(fixTime: int, lastFix: Option<Fix>)

  /** The hash `device:{id}:last`. */
  datatype Hash = Hash(serverTime: Option<int>, clockSkewedAt: Option<int>, fixTime: Option<int>, json: Option<Compact>)

  const NoHash := Hash(None, None, None, None)

  /** The position carried in the new snapshot. */
  function Carried(rec: Record, prior: Option<Compact>): Option<Fix> {
    if rec.Placeable() then Some(Fix(rec.lat, rec.lon, rec.fixTime))
    else if prior.None? then None
    else prior.value.lastFix
  }

  // ----- one call for one device, command by command -----

  /** The next Redis command of applyOne; `Store` remembers the snapshot read before it. */
  datatype Command = Contact | MarkSkewed | Compare | Tenant | Prior | Store(prior: Option<Compact>) | Publish

  /** The hash once the command has taken effect. */
  function Effect(h: Hash, rec: Record, c: Command): Hash {
    match c
    case Contact => h.(serverTime := Some(rec.serverTime))
    case MarkSkewed => h.(clockSkewedAt := Some(rec.serverTime))
    case Store(prior) => h.(fixTime := Some(rec.fixTime), json := Some(Compact(rec.fixTime, Carried(rec, prior))))
    case _ => h
  }

  /** The command after `c` succeeded on `h`, or `None` when the call is done. */
  function Next(h: Hash, rec: Record, c: Command): Option<Command> {
    match c
    case Contact => Some(if rec.Skewed() then MarkSkewed else Compare)
    case MarkSkewed => None
    case Compare => if h.fixTime.Some? && h.fixTime.value >= rec.fixTime then None else Some(Tenant)
    case Tenant => Some(Prior)
    case Prior => Some(Store(h.json))
    case Store(_) => Some(Publish)
    case Publish => None
  }

  /** A whole successful call that nothing interleaves with. */
  function Applied(h: Hash, rec: Record): Hash {
    var seen := h.(serverTime := Some(rec.serverTime));
    if rec.Skewed() then seen.(clockSkewedAt := Some(rec.serverTime))
    else if h.fixTime.Some? && h.fixTime.value >= rec.fixTime then seen
    else seen.(fixTime := Some(rec.fixTime), json := Some(Compact(rec.fixTime, Carried(rec, h.json))))
  }

  /** Executing the remaining commands of a call, uninterrupted. */
  function Finish(h: Hash, rec: Record, c: Command, fuel: nat): Hash
    decreases fuel
  {
    if fuel == 0 then h
    else
      match Next(h, rec, c)
      case None => Effect(h, rec, c)
      case Some(next) => Finish(Effect(h, rec, c), rec, next, fuel - 1)
  }

  /** The command sequence computes `Applied`; six commands are always enough. */
  lemma CommandsCompute(h: Hash, rec: Record)
    ensures Finish(h, rec, Contact, 6) == Applied(h, rec)
  {
    var h1 := Effect(h, rec, Contact);
    if rec.Skewed() {
      assert Finish(h1, rec, MarkSkewed, 5) == Applied(h, rec);
    } else if h.fixTime.None? || h.fixTime.value < rec.fixTime {
      assert Finish(h1, rec, Store(h1.json), 2) == Applied(h, rec);
      assert Finish(h1, rec, Prior, 3) == Applied(h, rec);
      assert Finish(h1, rec, Tenant, 4) == Applied(h, rec);
    }
  }

  // ----- batches -----

  /** The first of the newest records. */
  function Newest(batch: seq<Record>): (r: Record)
    requires batch != []
    ensures r in batch && forall q :: q in batch ==> q.fixTime <= r.fixTime
  {
    if |batch| == 1 then batch[0]
    else
      var n := |batch| - 1;
      var best := Newest(batch[..n]);
      assert forall q :: q in batch ==> q in batch[..n] || q == batch[n];
      if batch[n].fixTime > best.fixTime then batch[n] else best
  }

  function Of(records: seq<(DeviceId, Record)>, d: DeviceId): seq<Record> {
    if records == [] then []
    else
      var n := |records| - 1;
      Of(records[..n], d) + if records[n].0 == d then [records[n].1] else []
  }

  class LiveMarkers {
    var hashes: map<DeviceId, Hash>

    constructor ()
      ensures hashes == map[]
    {
      hashes := map[];
    }

    function HashOf(d: DeviceId): Hash
      reads this
    {
      if d in hashes then hashes[d] else NoHash
    }

    method ApplyOne(d: DeviceId, rec: Record)
      modifies this
      ensures hashes == old(hashes)[d := Applied(old(HashOf(d)), rec)]
    {
      hashes := hashes[d := HashOf(d).(serverTime := Some(rec.serverTime))];
      if rec.Skewed() {
        hashes := hashes[d := HashOf(d).(clockSkewedAt := Some(rec.serverTime))];
        return;
      }
      var stored, incoming := HashOf(d).fixTime, rec.fixTime;
      if stored.Some? && stored.value >= incoming { return; }
      var prior := HashOf(d).json;
      var carried: Option<Fix> := None;
      if rec.Placeable() {
        carried := Some(Fix(rec.lat, rec.lon, incoming));
      } else if prior.Some? {
        carried := prior.value.lastFix;
      }
      hashes := hashes[d := HashOf(d).(fixTime := Some(incoming), json := Some(Compact(incoming, carried)))];
    }

    /** One call of apply, every command succeeding: each device of the batch sees its newest record. */
    method Apply(records: seq<(DeviceId, Record)>)
      modifies this
      ensures forall d: DeviceId :: HashOf(d) ==
                if Of(records, d) == [] then old(HashOf(d)) else Applied(old(HashOf(d)), Newest(Of(records, d)))
    {
      hide Applied, Newest, Of;
      var newest := NewestPerDevice(records);
      var todo := newest.Keys;
      while todo != {}
        invariant todo <= newest.Keys
        invariant forall d: DeviceId :: HashOf(d) ==
                    if d in newest && d !in todo then Applied(old(HashOf(d)), newest[d]) else old(HashOf(d))
      {
        var d :| d in todo;
        ApplyOne(d, newest[d]);
        todo := todo - {d};
      }
    }
  }

  ghost predicate NewestOfEach(newest: map<DeviceId, Record>, records: seq<(DeviceId, Record)>) {
    forall d: DeviceId ::
      && (d in newest <==> Of(records, d) != [])
      && (d in newest ==> newest[d] == Newest(Of(records, d)))
  }

  method NewestPerDevice(records: seq<(DeviceId, Record)>) returns (newest: map<DeviceId, Record>)
    ensures NewestOfEach(newest, records)
  {
    newest := map[];
    for i := 0 to |records|
      invariant NewestOfEach(newest, records[..i])
    {
      hide NewestOfEach;
      NewestStep(newest, records, i);
      var (d, rec) := records[i];
      if d !in newest || rec.fixTime > newest[d].fixTime {
        newest := newest[d := rec];
      }
    }
    assert records[..|records|] == records;
  }

  lemma NewestStep(newest: map<DeviceId, Record>, records: seq<(DeviceId, Record)>, i: nat)
    requires i < |records| && NewestOfEach(newest, records[..i])
    ensures var (d, rec) := records[i];
      NewestOfEach(if d !in newest || rec.fixTime > newest[d].fixTime then newest[d := rec] else newest, records[..i + 1])
  {
    hide Newest, Of;
    var (d, rec) := records[i];
    OfGrows(records, i);
    NewestGrows(Of(records[..i], d), rec);
  }

  lemma OfGrows(records: seq<(DeviceId, Record)>, i: nat)
    requires i < |records|
    ensures forall d: DeviceId :: Of(records[..i + 1], d) ==
              if records[i].0 == d then Of(records[..i], d) + [records[i].1] else Of(records[..i], d)
  {
    assert records[..i + 1][..i] == records[..i];
    assert forall d: DeviceId :: Of(records[..i], d) + [] == Of(records[..i], d);
  }

  lemma NewestGrows(batch: seq<Record>, rec: Record)
    ensures Newest(batch + [rec]) ==
            if batch == [] || rec.fixTime > Newest(batch).fixTime then rec else Newest(batch)
  {
    assert (batch + [rec])[..|batch|] == batch;
  }

  // ----- overlapping calls, one device -----

  datatype Phase = Waiting | Running(next: Command) | Settled(ok: bool)

  /** One call's task for the device; `prev` is the promise it was chained to. */
  datatype Task = Task(batch: seq<Record>, prev: Option<nat>, phase: Phase)
  {
    function Rec(): Record
      requires batch != []
    {
      Newest(batch)
    }
  }

  /** `inflight` is the entry of the in-flight map for this device. */
  datatype State = State(hash: Hash, tasks: seq<Task>, inflight: Option<nat>)

  datatype Action =
    | Call(batch: seq<Record>)
    | Begin(i: nat)
    /** The next command of task `i`: whether it took effect and whether its reply was a success. */
    | Execute(i: nat, applied: bool, ok: bool)

  predicate Enabled(s: State, a: Action) {
    match a
    case Call(batch) => batch != []
    case Begin(i) =>
      && i < |s.tasks| && s.tasks[i].phase.Waiting?
      && (s.tasks[i].prev.Some? ==>
            s.tasks[i].prev.value < |s.tasks| && s.tasks[s.tasks[i].prev.value].phase.Settled?)
    case Execute(i, applied, ok) =>
      i < |s.tasks| && s.tasks[i].phase.Running? && s.tasks[i].batch != [] && (ok ==> applied)
  }

  /** Task `i` after a command; a task that ends leaves the in-flight map if it is the tail. */
  function Moved(s: State, i: nat, hash: Hash, phase: Phase): State
    requires i < |s.tasks|
  {
    State(hash, s.tasks[i := s.tasks[i].(phase := phase)],
          if phase.Settled? && s.inflight == Some(i) then None else s.inflight)
  }

  function Step(s: State, a: Action): State
    requires Enabled(s, a)
  {
    match a
    case Call(batch) => State(s.hash, s.tasks + [Task(batch, s.inflight, Waiting)], Some(|s.tasks|))
    case Begin(i) => Moved(s, i, s.hash, Running(Contact))
    case Execute(i, applied, ok) =>
      var t := s.tasks[i];
      var hash := if applied then Effect(s.hash, t.Rec(), t.phase.next) else s.hash;
      var next := Next(s.hash, t.Rec(), t.phase.next);
      Moved(s, i, hash, if !ok then Settled(false) else if next.None? then Settled(true) else Running(next.value))
  }

  // ----- invariants -----

  /** The chain lets one task run at a time, in order. */
  ghost predicate ChainOk(s: State) {
    && (forall j :: 0 <= j < |s.tasks| ==>
          && s.tasks[j].batch != []
          && (s.tasks[j].prev.Some? ==> s.tasks[j].prev.value + 1 == j)
          && (s.tasks[j].prev.None? || !s.tasks[j].phase.Waiting? ==> AllSettled(s.tasks, j)))
    && match s.inflight
       case None => AllSettled(s.tasks, |s.tasks|)
       case Some(x) => x + 1 == |s.tasks|
  }

  ghost predicate AllSettled(tasks: seq<Task>, n: nat)
    requires n <= |tasks|
  {
    forall i :: 0 <= i < n ==> tasks[i].phase.Settled?
  }

  ghost predicate HashOk(h: Hash) {
    && (h.fixTime.Some? <==> h.json.Some?)
    && (h.json.Some? ==>
          && h.json.value.fixTime == h.fixTime.value
          && (h.json.value.lastFix.Some? ==> h.json.value.lastFix.value.fixTime <= h.fixTime.value))
  }

  /** What a running call has read is still what the hash holds. */
  ghost predicate RunOk(h: Hash, t: Task)
    requires t.batch != [] && t.phase.Running?
  {
    var rec := t.Rec();
    match t.phase.next
    case Contact => true
    case MarkSkewed => rec.Skewed()
    case Compare => !rec.Skewed()
    case Publish => !rec.Skewed() && h.fixTime == Some(rec.fixTime)
    case Store(prior) => !rec.Skewed() && (h.fixTime.None? || h.fixTime.value < rec.fixTime) && prior == h.json
    case _ => !rec.Skewed() && (h.fixTime.None? || h.fixTime.value < rec.fixTime)
  }

  ghost predicate Inv(s: State) {
    && ChainOk(s) && HashOk(s.hash)
    && forall j :: 0 <= j < |s.tasks| && s.tasks[j].phase.Running? ==> RunOk(s.hash, s.tasks[j])
  }

  /** The marker only moves forward, and the last placeable fix is never lost and only moves forward. */
  ghost predicate Forward(h: Hash, h': Hash) {
    && (h.fixTime.Some? ==> h'.fixTime.Some? && h'.fixTime.value >= h.fixTime.value)
    && (h.json.Some? && h.json.value.lastFix.Some? ==>
          && h'.json.Some? && h'.json.value.lastFix.Some?
          && h'.json.value.lastFix.value.fixTime >= h.json.value.lastFix.value.fixTime)
  }

  lemma EffectForward(h: Hash, t: Task, ok: bool)
    requires t.batch != [] && t.phase.Running? && HashOk(h) && RunOk(h, t)
    ensures var h' := Effect(h, t.Rec(), t.phase.next); HashOk(h') && Forward(h, h')
    ensures var h' := Effect(h, t.Rec(), t.phase.next);
      var next := Next(h, t.Rec(), t.phase.next);
      next.Some? ==> RunOk(h', t.(phase := Running(next.value)))
  {
    hide Newest;
  }

  lemma StepKeeps(s: State, a: Action)
    requires Inv(s) && Enabled(s, a)
    ensures Inv(Step(s, a)) && Forward(s.hash, Step(s, a).hash)
  {
    hide Newest, Effect, Next, RunOk, HashOk;
    if a.Execute? {
      var t := s.tasks[a.i];
      EffectForward(s.hash, t, a.ok);
      assert forall j :: 0 <= j < |s.tasks| && j != a.i ==> !s.tasks[j].phase.Running?;
    } else if a.Begin? {
      BeginOk(s.hash, s.tasks[a.i]);
      assert AllSettled(s.tasks, a.i);
    }
    ChainKept(s, a);
  }

  lemma BeginOk(h: Hash, t: Task)
    requires t.batch != []
    ensures RunOk(h, t.(phase := Running(Contact)))
  {
  }

  lemma ChainKept(s: State, a: Action)
    requires ChainOk(s) && Enabled(s, a)
    ensures ChainOk(Step(s, a))
  {
    hide Newest, Effect, Next;
    var s' := Step(s, a);
    if a.Begin? && s.tasks[a.i].prev.Some? {
      assert AllSettled(s.tasks, s.tasks[a.i].prev.value);
    }
  }

  // ----- runs -----

  ghost predicate IsRun(h0: Hash, run: seq<State>, actions: seq<Action>) {
    && HashOk(h0) && |run| == |actions| + 1 && run[0] == State(h0, [], None)
    && forall k :: 0 <= k < |actions| ==> Enabled(run[k], actions[k]) && run[k + 1] == Step(run[k], actions[k])
  }

  lemma {:induction false} ReachableOk(h0: Hash, run: seq<State>, actions: seq<Action>, k: nat)
    requires IsRun(h0, run, actions) && k < |run|
    ensures Inv(run[k])
  {
    if k > 0 {
      hide Inv, Enabled, Step;
      ReachableOk(h0, run, actions, k - 1);
      StepKeeps(run[k - 1], actions[k - 1]);
    }
  }

  /** No two calls are ever inside the read-compare-write of one device at once. */
  lemma OneCallRunsAtATime(h0: Hash, run: seq<State>, actions: seq<Action>, k: nat, i: nat, j: nat)
    requires IsRun(h0, run, actions) && k < |run| && i < |run[k].tasks| && j < |run[k].tasks|
    requires run[k].tasks[i].phase.Running? && run[k].tasks[j].phase.Running?
    ensures i == j
  {
    ReachableOk(h0, run, actions, k);
  }

  /** Between any two moments of any run, with any failures: the marker never goes back, the last
      placeable fix never disappears and never goes back, and it is never newer than the marker. */
  lemma {:induction false} MarkerNeverGoesBack(h0: Hash, run: seq<State>, actions: seq<Action>, a: nat, b: nat)
    requires IsRun(h0, run, actions) && a <= b < |run|
    ensures Forward(run[a].hash, run[b].hash)
    ensures var h := run[b].hash;
      h.json.Some? && h.json.value.lastFix.Some? ==>
      h.fixTime.Some? && h.json.value.lastFix.value.fixTime <= h.fixTime.value
  {
    ReachableOk(h0, run, actions, b);
    if a < b {
      hide Inv, Enabled, Step;
      ReachableOk(h0, run, actions, b - 1);
      StepKeeps(run[b - 1], actions[b - 1]);
      MarkerNeverGoesBack(h0, run, actions, a, b - 1);
    }
  }

  /** A successful call with a trusted clock has brought the marker at least to its record. */
  ghost predicate ReachedBy(h: Hash, t: Task)
    requires t.batch != []
  {
    t.phase == Settled(true) && !t.Rec().Skewed() ==> h.fixTime.Some? && h.fixTime.value >= t.Rec().fixTime
  }

  /** The marker is the one at the start or the fix time of some call's record with a trusted clock. */
  ghost predicate Explained(h0: Hash, s: State) {
    || s.hash.fixTime == h0.fixTime
    || exists j :: 0 <= j < |s.tasks| && s.tasks[j].batch != [] && !s.tasks[j].Rec().Skewed()
                   && s.hash.fixTime == Some(s.tasks[j].Rec().fixTime)
  }

  lemma StepReaches(h0: Hash, s: State, a: Action)
    requires Inv(s) && Enabled(s, a) && Explained(h0, s)
    requires forall j :: 0 <= j < |s.tasks| ==> ReachedBy(s.hash, s.tasks[j])
    ensures var s' := Step(s, a);
      Explained(h0, s') && Inv(s') && forall j :: 0 <= j < |s'.tasks| ==> ReachedBy(s'.hash, s'.tasks[j])
  {
    StepKeeps(s, a);
    StepReachesEach(s, a);
    StepExplained(h0, s, a);
  }

  lemma StepReachesEach(s: State, a: Action)
    requires Inv(s) && Enabled(s, a) && Inv(Step(s, a)) && Forward(s.hash, Step(s, a).hash)
    requires forall j :: 0 <= j < |s.tasks| ==> ReachedBy(s.hash, s.tasks[j])
    ensures var s' := Step(s, a); forall j :: 0 <= j < |s'.tasks| ==> ReachedBy(s'.hash, s'.tasks[j])
  {
    hide Newest;
  }

  lemma StepExplained(h0: Hash, s: State, a: Action)
    requires Inv(s) && Enabled(s, a) && Explained(h0, s) && ChainOk(Step(s, a))
    ensures Explained(h0, Step(s, a))
  {
    hide Newest;
    var s' := Step(s, a);
    if s'.hash.fixTime == s.hash.fixTime {
      if s.hash.fixTime != h0.fixTime {
        var j :| 0 <= j < |s.tasks| && s.tasks[j].batch != [] && !s.tasks[j].Rec().Skewed()
                 && s.hash.fixTime == Some(s.tasks[j].Rec().fixTime);
        assert s'.tasks[j].batch == s.tasks[j].batch;
      }
    } else {
      assert s'.tasks[a.i].batch == s.tasks[a.i].batch;
    }
  }

  lemma {:induction false} RunReaches(h0: Hash, run: seq<State>, actions: seq<Action>, k: nat)
    requires IsRun(h0, run, actions) && k < |run|
    ensures Inv(run[k]) && Explained(h0, run[k])
    ensures forall j :: 0 <= j < |run[k].tasks| ==> ReachedBy(run[k].hash, run[k].tasks[j])
  {
    if k > 0 {
      hide Inv, Enabled, Step, Explained, ReachedBy;
      RunReaches(h0, run, actions, k - 1);
      StepReaches(h0, run[k - 1], actions[k - 1]);
    }
  }

  // ----- what the hash says -----

  /** The last fix is the one at the start, or the position of some call's record that has one and whose clock is
      trusted. */
  ghost predicate FixExplained(h0: Hash, s: State) {
    s.hash.json.Some? && s.hash.json.value.lastFix.Some? ==>
      || s.hash.json == h0.json
      || (h0.json.Some? && s.hash.json.value.lastFix == h0.json.value.lastFix)
      || exists j :: 0 <= j < |s.tasks| && IsFixOf(s.tasks[j], s.hash.json.value.lastFix.value)
  }

  ghost predicate IsFixOf(t: Task, fix: Fix) {
    t.batch != [] && !t.Rec().Skewed() && t.Rec().Placeable() && fix == Fix(t.Rec().lat, t.Rec().lon, t.Rec().fixTime)
  }

  lemma StepFixExplained(h0: Hash, s: State, a: Action)
    requires Inv(s) && Enabled(s, a) && FixExplained(h0, s)
    ensures FixExplained(h0, Step(s, a))
  {
    hide Newest;
    var s' := Step(s, a);
    assert forall j :: 0 <= j < |s.tasks| ==> s'.tasks[j].batch == s.tasks[j].batch;
    if s.hash.json.Some? && s.hash.json.value.lastFix.Some?
        && exists j :: 0 <= j < |s.tasks| && IsFixOf(s.tasks[j], s.hash.json.value.lastFix.value) {
      var j :| 0 <= j < |s.tasks| && IsFixOf(s.tasks[j], s.hash.json.value.lastFix.value);
      assert IsFixOf(s'.tasks[j], s.hash.json.value.lastFix.value);
    }
    if a.Execute? && a.applied && s.tasks[a.i].phase.next.Store? && s.tasks[a.i].Rec().Placeable() {
      assert IsFixOf(s'.tasks[a.i], s'.hash.json.value.lastFix.value);
    }
  }

  /** In every run, with any failures, the last fix shown is a real one. */
  lemma {:induction false} LastFixIsReal(h0: Hash, run: seq<State>, actions: seq<Action>, k: nat)
    requires IsRun(h0, run, actions) && k < |run|
    ensures FixExplained(h0, run[k])
  {
    if k > 0 {
      hide Inv, Enabled, Step, FixExplained;
      LastFixIsReal(h0, run, actions, k - 1);
      ReachableOk(h0, run, actions, k - 1);
      StepFixExplained(h0, run[k - 1], actions[k - 1]);
    }
  }

  /** What one whole call does to each field: contact is always noted, a skewed clock is noted and moves nothing,
      and a newer record with a trusted clock moves the marker, with its own position if it has one and the last
      known one if not. */
  lemma AppliedFields(h: Hash, rec: Record)
    requires HashOk(h)
    ensures var h' := Applied(h, rec);
      && h'.serverTime == Some(rec.serverTime)
      && h'.clockSkewedAt == (if rec.Skewed() then Some(rec.serverTime) else h.clockSkewedAt)
      && (h'.fixTime != h.fixTime <==> !rec.Skewed() && (h.fixTime.Some? ==> h.fixTime.value < rec.fixTime))
      && (h'.fixTime == h.fixTime ==> h'.json == h.json)
      && (h'.fixTime != h.fixTime ==>
            && h'.fixTime == Some(rec.fixTime) && h'.json.Some? && h'.json.value.fixTime == rec.fixTime
            && (h'.json.value.lastFix == Some(Fix(rec.lat, rec.lon, rec.fixTime)) <==> rec.Placeable())
            && (!rec.Placeable() ==> h'.json.value.lastFix == if h.json.Some? then h.json.value.lastFix else None))
  {
  }

  // ----- what the marker ends up at -----

  /** Every call of the run so far has ended successfully. */
  ghost predicate AllSucceeded(s: State) {
    forall j :: 0 <= j < |s.tasks| ==> s.tasks[j].phase == Settled(true)
  }

  /** The times the calls compared with the marker: the newest record of each, if its clock is trusted. */
  function Compared(s: State): set<int> {
    set j | 0 <= j < |s.tasks| && s.tasks[j].batch != [] && !s.tasks[j].Rec().Skewed() :: s.tasks[j].Rec().fixTime
  }

  /** The fix times of a batch's records with a trusted clock, the newest record or not. */
  function Trusted(batch: seq<Record>): set<int> {
    set r | r in batch && !r.Skewed() :: r.fixTime
  }

  function TrustedAll(s: State): set<int> {
    set j, t | 0 <= j < |s.tasks| && t in Trusted(s.tasks[j].batch) :: t
  }

  /** `m` is the greatest of `stored` and the times. */
  ghost predicate IsLatest(m: Option<int>, stored: Option<int>, times: set<int>) {
    && (stored.Some? ==> m.Some? && m.value >= stored.value)
    && (forall t :: t in times ==> m.Some? && m.value >= t)
    && (m == stored || (m.Some? && m.value in times))
  }

  /** Whatever the clocks: after any interleaving of successful calls the marker is the maximum of its starting
      value and the newest records of the batches whose newest record has a trusted clock. */
  lemma MarkerIsLatestCompared(h0: Hash, run: seq<State>, actions: seq<Action>, k: nat)
    requires IsRun(h0, run, actions) && k < |run| && AllSucceeded(run[k])
    ensures IsLatest(run[k].hash.fixTime, h0.fixTime, Compared(run[k]))
  {
    RunReaches(h0, run, actions, k);
    MarkerReachesStart(h0, run, actions, k);
    var s := run[k];
    hide Newest;
    forall t | t in Compared(s) ensures s.hash.fixTime.Some? && s.hash.fixTime.value >= t {
      var j :| 0 <= j < |s.tasks| && s.tasks[j].batch != [] && !s.tasks[j].Rec().Skewed() && t == s.tasks[j].Rec().fixTime;
      assert ReachedBy(s.hash, s.tasks[j]);
    }
  }

  lemma MarkerReachesStart(h0: Hash, run: seq<State>, actions: seq<Action>, k: nat)
    requires IsRun(h0, run, actions) && k < |run|
    ensures h0.fixTime.Some? ==> run[k].hash.fixTime.Some? && run[k].hash.fixTime.value >= h0.fixTime.value
  {
    if k > 0 {
      MarkerNeverGoesBack(h0, run, actions, 0, k);
    }
  }

  /** The trusted times that a call left out, because its newest record was skewed. */
  function Masked(s: State): set<int> {
    set j, t | 0 <= j < |s.tasks| && s.tasks[j].batch != [] && s.tasks[j].Rec().Skewed() && t in Trusted(s.tasks[j].batch) :: t
  }

  /** So it is the maximum over all trusted records if and only if no trusted record hidden behind a skewed one is
      newer than the start and everything that was compared. */
  lemma MarkerIsLatestTrustedIff(h0: Hash, run: seq<State>, actions: seq<Action>, k: nat)
    requires IsRun(h0, run, actions) && k < |run| && AllSucceeded(run[k])
    ensures var s := run[k];
      IsLatest(s.hash.fixTime, h0.fixTime, TrustedAll(s)) <==>
      forall t :: t in Masked(s) ==>
        (h0.fixTime.Some? && t <= h0.fixTime.value) || (exists u :: u in Compared(s) && t <= u)
  {
    MarkerIsLatestCompared(h0, run, actions, k);
    TrustedSplits(run[k]);
    hide IsRun, Compared, TrustedAll, Masked;
  }

  /** A trusted time is a compared one, at most a compared one, or masked. */
  lemma TrustedSplits(s: State)
    ensures Compared(s) <= TrustedAll(s) && Masked(s) <= TrustedAll(s)
    ensures forall t :: t in TrustedAll(s) && t !in Masked(s) ==> exists u :: u in Compared(s) && t <= u
  {
    hide Newest;
    forall u | u in Compared(s) ensures u in TrustedAll(s) {
      var j :| 0 <= j < |s.tasks| && s.tasks[j].batch != [] && !s.tasks[j].Rec().Skewed() && u == s.tasks[j].Rec().fixTime;
      assert u in Trusted(s.tasks[j].batch);
    }
    forall t | t in TrustedAll(s) && t !in Masked(s) ensures exists u :: u in Compared(s) && t <= u {
      var j :| 0 <= j < |s.tasks| && t in Trusted(s.tasks[j].batch);
      assert s.tasks[j].Rec().fixTime in Compared(s);
    }
  }

  /** Confluence: without skewed records the marker is the maximum of its starting value and every fix time of
      every batch; how records were batched, ordered and overlapped does not matter. */
  lemma MarkerIsMaximum(h0: Hash, run: seq<State>, actions: seq<Action>, k: nat)
    requires IsRun(h0, run, actions) && k < |run| && AllSucceeded(run[k])
    requires forall j, r :: 0 <= j < |run[k].tasks| && r in run[k].tasks[j].batch ==> !r.Skewed()
    ensures IsLatest(run[k].hash.fixTime, h0.fixTime,
                     set j, r | 0 <= j < |run[k].tasks| && r in run[k].tasks[j].batch :: r.fixTime)
  {
    var s := run[k];
    MarkerIsLatestTrustedIff(h0, run, actions, k);
    assert Masked(s) == {};
    forall j, r | 0 <= j < |s.tasks| && r in s.tasks[j].batch ensures r.fixTime in TrustedAll(s) {
      assert r.fixTime in Trusted(s.tasks[j].batch);
    }
    assert TrustedAll(s) == set j, r | 0 <= j < |s.tasks| && r in s.tasks[j].batch :: r.fixTime;
  }

  /** The greatest of the stored time and the batch's trusted fix times. */
  function Latest(stored: Option<int>, batch: seq<Record>): Option<int> {
    if batch == [] then stored
    else
      var n := |batch| - 1;
      var m := Latest(stored, batch[..n]);
      if batch[n].Skewed() || (m.Some? && m.value >= batch[n].fixTime) then m else Some(batch[n].fixTime)
  }

  lemma {:induction false} LatestIsMaximum(stored: Option<int>, batch: seq<Record>)
    ensures IsLatest(Latest(stored, batch), stored, Trusted(batch))
  {
    if batch != [] {
      var n := |batch| - 1;
      LatestIsMaximum(stored, batch[..n]);
      assert batch == batch[..n] + [batch[n]];
      assert Trusted(batch) == Trusted(batch[..n]) + if batch[n].Skewed() then {} else {batch[n].fixTime};
    }
  }

  /** One call brings the marker to the maximum of its batch if and only if the newest record of the batch has a
      trusted clock, or no trusted record of the batch is newer than the marker anyway. */
  lemma BatchReachesMaximumIff(h: Hash, batch: seq<Record>)
    requires batch != []
    ensures Applied(h, Newest(batch)).fixTime == Latest(h.fixTime, batch) <==>
            || !Newest(batch).Skewed()
            || forall r :: r in batch && !r.Skewed() ==> h.fixTime.Some? && r.fixTime <= h.fixTime.value
  {
    LatestIsMaximum(h.fixTime, batch);
    hide Newest, Latest;
    assert forall r :: r in batch && !r.Skewed() ==> r.fixTime in Trusted(batch);
  }

  /** A batch that falls under the exception: a good record that alone would move the marker does not move it
      beside one from the future, which is chosen as the newest before its clock is looked at. */
  lemma SkewMasksItsBatch()
    ensures var good := Record(1_000, 1_000, true, 1, 1);
      var future := Record(1_000_000, 1_000, true, 1, 1);
      && !good.Skewed() && future.Skewed()
      && Applied(NoHash, Newest([good, future])).fixTime == None
      && Applied(NoHash, Newest([good])).fixTime == Some(1_000)
  {
    var good, future := Record(1_000, 1_000, true, 1, 1), Record(1_000_000, 1_000, true, 1, 1);
    assert [good, future][..1] == [good];
  }
}
