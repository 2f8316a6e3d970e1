/**
 * Delivery of one shard stream into the positions table by any number of workers: consumer-group
 * reads, re-reads of a worker's own pending entries, autoclaim, quarantine, insert, hand-off and
 * acknowledgement, command by command. A worker can crash, throw or be fenced between any two
 * commands, a reply can be lost after its command took effect, and the stream can be trimmed at any
 * moment. Which worker may run when is left entirely open, so nothing here depends on leases.
 */
module Pipeline {
  import Positions
  import opened Options

  type Id = nat
  type WorkerId = nat

  /** An entry's bytes, and the row key normalization makes of them; `None` if they are malformed. */
  datatype Payload = Payload(bytes: nat, key: Option<Positions.Key>)

  /** What a worker is doing, named by the commands still to come. `gone` are tombstones: pending
      entries whose data the stream no longer has. */
  datatype Phase =
    | Idle
    | AckTombstones(gone: set<Id>, got: set<Id>)
    | Counting(gone: set<Id>, got: set<Id>)
    | Quarantining(toAppend: set<Id>, toAck: set<Id>, records: set<Id>)
    | Inserting(records: set<Id>)
    | Rejecting(toAppend: set<Id>, records: set<Id>)
    | HandingOff(records: set<Id>)
    | Acking(todo: set<Id>)

  /**
   * `log` remembers every entry ever added and `delivered` every entry ever handed to the group; `dead` is
   * the dead-letter stream, by the id of the entry it quotes;
   * `lost` the tombstones whose removal a crash or a lost reply kept from being counted.
   */
  datatype State = State(
    log: map<Id, Payload>, stream: set<Id>, lastDelivered: int, delivered: set<Id>,
    pel: map<Id, WorkerId>, dead: map<Id, Payload>, table: set<Positions.Key>, counted: set<Id>, lost: set<Id>,
    workers: map<WorkerId, Phase>)

  const Init := State(map[], {}, -1, {}, map[], map[], {}, {}, {}, map[])

  datatype Action =
    | Add(p: Payload)
    | Trim(ids: set<Id>)
    /** XREADGROUP '>': every retained entry after the last delivered one, up to `last`. */
    | ReadNew(w: WorkerId, last: Id, replied: bool)
    /** XREADGROUP '0' */
    | ReadOwn(w: WorkerId, ids: set<Id>)
    /** XAUTOCLAIM: `claim` changes owner, `drop` are tombstones removed from the pending list. */
    | Autoclaim(w: WorkerId, claim: set<Id>, drop: set<Id>, replied: bool)
    | AckGone(w: WorkerId, replied: bool)
    | CountGone(w: WorkerId)
    /** XADD raw:dead of one entry */
    | Append(w: WorkerId, id: Id)
    | Ack(w: WorkerId, id: Id)
    /** A committed insert statement. */
    | InsertSome(w: WorkerId, keys: set<Positions.Key>)
    /** The bisecting insert has returned with these entries rejected. */
    | InsertDone(w: WorkerId, bad: set<Id>)
    | HandOff(w: WorkerId)
    /** The worker has no command of its phase left. */
    | Advance(w: WorkerId)
    /** A crash, an exception or a failed fence check; the worker forgets what it was doing. */
    | Drop(w: WorkerId)

  function PhaseOf(s: State, w: WorkerId): Phase {
    if w in s.workers then s.workers[w] else Idle
  }

  function KeysOf(log: map<Id, Payload>, ids: set<Id>): set<Positions.Key> {
    set id | id in ids && id in log && log[id].key.Some? :: log[id].key.value
  }

  predicate Stored(s: State, id: Id) {
    id in s.log && s.log[id].key.Some? && s.log[id].key.value in s.table
  }

  predicate Quarantined(s: State, id: Id) {
    id in s.log && id in s.dead && s.dead[id] == s.log[id]
  }

  function Malformed(log: map<Id, Payload>, ids: set<Id>): set<Id> {
    set id | id in ids && (id !in log || log[id].key.None?)
  }

  /** process(): malformed entries first, then the rest; nothing to do for no entries. */
  function Process(log: map<Id, Payload>, got: set<Id>): Phase {
    if got == {} then Idle
    else Quarantining(Malformed(log, got), {}, got - Malformed(log, got))
  }

  function NewIds(s: State, last: Id): set<Id> {
    set id | id in s.stream && s.lastDelivered < id <= last
  }

  predicate Enabled(s: State, a: Action) {
    match a
    case Add(_) => true
    case Trim(_) => true
    case ReadNew(w, last, _) => PhaseOf(s, w).Idle? && last in s.stream && s.lastDelivered < last
    case ReadOwn(w, ids) => PhaseOf(s, w).Idle? && forall id :: id in ids ==> id in s.pel && s.pel[id] == w
    case Autoclaim(w, claim, drop, _) =>
      PhaseOf(s, w).Idle? && claim <= s.pel.Keys * s.stream && drop <= s.pel.Keys - s.stream
    case AckGone(w, _) => PhaseOf(s, w).AckTombstones?
    case CountGone(w) => PhaseOf(s, w).Counting?
    case Append(w, id) =>
      var p := PhaseOf(s, w); (p.Quarantining? || p.Rejecting?) && id in p.toAppend && id in s.log
    case Ack(w, id) =>
      var p := PhaseOf(s, w); (p.Quarantining? && id in p.toAck) || (p.Acking? && id in p.todo)
    case InsertSome(w, keys) => PhaseOf(s, w).Inserting? && keys <= KeysOf(s.log, PhaseOf(s, w).records)
    case InsertDone(w, bad) =>
      PhaseOf(s, w).Inserting? && bad <= PhaseOf(s, w).records && forall id :: id in PhaseOf(s, w).records - bad ==> Stored(s, id)
    case HandOff(w) => PhaseOf(s, w).HandingOff?
    case Advance(w) =>
      var p := PhaseOf(s, w);
      (p.Quarantining? && p.toAppend == {} && p.toAck == {}) || (p.Rejecting? && p.toAppend == {}) || (p.Acking? && p.todo == {})
    case Drop(_) => true
  }

  function Goto(s: State, w: WorkerId, p: Phase): State {
    s.(workers := s.workers[w := p])
  }

  function Owned(ids: set<Id>, w: WorkerId): map<Id, WorkerId> {
    map id | id in ids :: w
  }

  function Step(s: State, a: Action): State
    requires Enabled(s, a)
  {
    match a
    case Add(p) =>
      var id := NextId(s.log); s.(log := s.log[id := p], stream := s.stream + {id})
    case Trim(ids) => s.(stream := s.stream - ids)
    case ReadNew(w, last, replied) =>
      var ids := NewIds(s, last);
      Goto(s.(pel := s.pel + Owned(ids, w), delivered := s.delivered + ids, lastDelivered := last), w,
           if replied then Process(s.log, ids) else Idle)
    case ReadOwn(w, ids) =>
      var gone, got := ids - s.stream, ids * s.stream;
      Goto(s, w, if gone == {} then Process(s.log, got) else AckTombstones(gone, got))
    case Autoclaim(w, claim, drop, replied) =>
      var s' := s.(pel := (s.pel - drop) + Owned(claim, w));
      if replied then Goto(s', w, Counting(drop, claim)) else Goto(s'.(lost := s'.lost + drop), w, Idle)
    case AckGone(w, replied) =>
      var p := PhaseOf(s, w);
      var s' := s.(pel := s.pel - p.gone);
      if replied then Goto(s', w, Counting(p.gone, p.got)) else Goto(s'.(lost := s'.lost + p.gone), w, Idle)
    case CountGone(w) =>
      var p := PhaseOf(s, w);
      Goto(s.(counted := s.counted + p.gone), w, Process(s.log, p.got))
    case Append(w, id) =>
      var p := PhaseOf(s, w);
      Goto(s.(dead := s.dead[id := s.log[id]]), w,
           if p.Rejecting? then Rejecting(p.toAppend - {id}, p.records)
           else Quarantining(p.toAppend - {id}, p.toAck + {id}, p.records))
    case Ack(w, id) =>
      var p := PhaseOf(s, w);
      Goto(s.(pel := s.pel - {id}), w,
           if p.Acking? then Acking(p.todo - {id}) else Quarantining(p.toAppend, p.toAck - {id}, p.records))
    case InsertSome(w, keys) => s.(table := s.table + keys)
    case InsertDone(w, bad) => Goto(s, w, Rejecting(bad, PhaseOf(s, w).records))
    case HandOff(w) => Goto(s, w, Acking(PhaseOf(s, w).records))
    case Advance(w) =>
      var p := PhaseOf(s, w);
      Goto(s, w, if p.Rejecting? then HandingOff(p.records)
                 else if p.Quarantining? && p.records != {} then Inserting(p.records) else Idle)
    case Drop(w) =>
      var p := PhaseOf(s, w);
      Goto(if p.Counting? then s.(lost := s.lost + p.gone) else s, w, Idle)
  }

  /** Stream ids only grow. */
  function NextId(log: map<Id, Payload>): (id: Id)
    ensures forall i :: i in log ==> i < id
  {
    Above(log.Keys)
  }

  predicate IsMax(ids: set<Id>, m: Id) {
    m in ids && forall i :: i in ids ==> i <= m
  }

  function Above(ids: set<Id>): (id: Id)
    ensures forall i :: i in ids ==> i < id
  {
    if ids == {} then 0
    else
      MaxExists(ids);
      var m :| m in ids && IsMax(ids, m);
      m + 1
  }

  lemma MaxExists(ids: set<Id>)
    requires ids != {}
    ensures exists m :: m in ids && IsMax(ids, m)
  {
    var m := Max(ids);
    assert IsMax(ids, m);
  }

  lemma {:induction false} Max(ids: set<Id>) returns (m: Id)
    requires ids != {}
    ensures IsMax(ids, m)
    decreases ids
  {
    m :| m in ids;
    var rest := ids - {m};
    assert forall i :: i in ids ==> i == m || i in rest;
    if rest != {} {
      var most := Max(rest);
      m := if most < m then m else most;
    }
  }

  // ----- invariant -----

  /** Some worker has removed the entry as a tombstone and is about to count it. */
  ghost predicate AboutToCount(s: State, id: Id) {
    exists w :: w in s.workers && s.workers[w].Counting? && id in s.workers[w].gone
  }

  /** The entry was trimmed and then removed as a tombstone: counted, about to be, or cut off from its count. */
  ghost predicate Evicted(s: State, id: Id) {
    id !in s.stream && (id in s.counted || id in s.lost || AboutToCount(s, id))
  }

  /** Why an entry may be off the pending list. */
  ghost predicate Settled(s: State, id: Id) {
    Stored(s, id) || Quarantined(s, id) || id in s.counted || id in s.lost || AboutToCount(s, id)
  }

  ghost predicate LogOk(s: State) {
    && s.stream <= s.log.Keys && s.delivered <= s.log.Keys && s.pel.Keys <= s.delivered
    && (forall id :: id in s.delivered ==> id <= s.lastDelivered)
    && (forall id :: id in s.stream && id !in s.delivered ==> id > s.lastDelivered)
    && s.lastDelivered < NextId(s.log)
  }

  /** Rows, quarantined bytes and evictions all stem from delivered entries. */
  ghost predicate EffectsOk(s: State) {
    && s.table <= KeysOf(s.log, s.delivered)
    && (forall id :: id in s.dead ==> id in s.delivered && Quarantined(s, id))
    && s.counted + s.lost <= s.delivered - s.stream
  }

  ghost predicate PhaseOk(s: State, p: Phase) {
    match p
    case Idle => true
    case AckTombstones(gone, got) => gone <= s.delivered - s.stream && got <= s.delivered
    case Counting(gone, got) => gone <= s.delivered - s.stream && got <= s.delivered
    case Quarantining(toAppend, toAck, records) =>
      && toAppend + toAck + records <= s.delivered
      && (forall id :: id in toAck ==> Quarantined(s, id))
    case Inserting(records) => records <= s.delivered
    case Rejecting(toAppend, records) =>
      toAppend <= records <= s.delivered && forall id :: id in records - toAppend ==> Stored(s, id) || Quarantined(s, id)
    case HandingOff(records) =>
      records <= s.delivered && forall id :: id in records ==> Stored(s, id) || Quarantined(s, id)
    case Acking(todo) =>
      todo <= s.delivered && forall id :: id in todo ==> Stored(s, id) || Quarantined(s, id)
  }

  ghost predicate PhasesOk(s: State) {
    forall w :: w in s.workers ==> PhaseOk(s, s.workers[w])
  }

  ghost predicate PendingOk(s: State) {
    forall id :: id in s.delivered && id !in s.pel ==> Settled(s, id)
  }

  ghost predicate Inv(s: State) {
    LogOk(s) && EffectsOk(s) && PhasesOk(s) && PendingOk(s)
  }

  /** History is only added to, and an entry once gone from the stream stays gone. */
  ghost predicate Grew(s: State, s': State) {
    && (forall id :: id in s.log ==> id in s'.log && s'.log[id] == s.log[id])
    && s.delivered <= s'.delivered && s.table <= s'.table
    && (forall id :: Quarantined(s, id) ==> Quarantined(s', id))
    && s.counted <= s'.counted && s.lost <= s'.lost
    && s'.stream * s.log.Keys <= s.stream
  }

  lemma StepGrew(s: State, a: Action)
    requires Enabled(s, a)
    ensures Grew(s, Step(s, a))
  {
    hide Malformed, Above;
  }

  lemma PhaseStaysOk(s: State, s': State, p: Phase)
    requires Grew(s, s') && PhaseOk(s, p) && s.delivered <= s.log.Keys
    ensures PhaseOk(s', p)
  {
  }

  lemma LogKept(s: State, a: Action)
    requires LogOk(s) && PhasesOk(s) && Enabled(s, a)
    ensures LogOk(Step(s, a))
  {
    hide Process, Malformed, KeysOf, Quarantined, Stored, Above;
    if a.Add? {
      var id := NextId(s.log);
      assert id in Step(s, a).log && forall i :: i in Step(s, a).log ==> i < NextId(Step(s, a).log);
    }
    if a.ReadNew? {
      assert a.last in s.log;
    }
    if a.Autoclaim? {
      assert (s.pel - a.drop).Keys <= s.delivered && Owned(a.claim, a.w).Keys == a.claim;
    }
  }

  /** The phase a worker of a sound state is in is sound. */
  lemma PhaseAt(s: State, w: WorkerId)
    requires PhasesOk(s)
    ensures PhaseOk(s, PhaseOf(s, w))
  {
  }

  lemma EffectsKept(s: State, a: Action)
    requires LogOk(s) && EffectsOk(s) && PhasesOk(s) && Enabled(s, a)
    ensures EffectsOk(Step(s, a))
  {
    hide Process, Malformed, Above, PhasesOk;
    if !a.Add? && !a.Trim? {
      PhaseAt(s, a.w);
    }
    var s' := Step(s, a);
    StepGrew(s, a);
    KeysGrow(s.log, s.delivered, s'.log, s'.delivered);
    if a.InsertSome? {
      KeysGrow(s.log, PhaseOf(s, a.w).records, s.log, s.delivered);
    }
    if a.Append? {
      assert a.id in s.delivered;
    }
    hide KeysOf;
  }

  lemma KeysGrow(log: map<Id, Payload>, ids: set<Id>, log': map<Id, Payload>, ids': set<Id>)
    requires ids <= ids' && forall id :: id in log ==> id in log' && log'[id] == log[id]
    ensures KeysOf(log, ids) <= KeysOf(log', ids')
  {
  }

  /** The phase the step leaves its worker in. */
  lemma NewPhaseOk(s: State, a: Action)
    requires LogOk(s) && PhasesOk(s) && Enabled(s, a) && !a.Add? && !a.Trim?
    ensures PhaseOk(Step(s, a), PhaseOf(Step(s, a), a.w))
  {
    var s', p := Step(s, a), PhaseOf(s, a.w);
    PhaseAt(s, a.w);
    StepGrew(s, a);
    hide PhasesOk, Above;
    PhaseStaysOk(s, s', p);
    if a.ReadNew? {
      ProcessOk(s', s.log, NewIds(s, a.last));
    } else if a.ReadOwn? {
      ProcessOk(s', s.log, a.ids * s.stream);
    } else if a.CountGone? {
      ProcessOk(s', s.log, p.got);
    }
    hide Process;
  }

  lemma ProcessOk(s: State, log: map<Id, Payload>, got: set<Id>)
    requires got <= s.delivered
    ensures PhaseOk(s, Process(log, got))
  {
  }

  lemma OthersUnmoved(s: State, a: Action)
    requires Enabled(s, a)
    ensures forall w :: w in s.workers && !(!a.Add? && !a.Trim? && w == a.w) ==>
              w in Step(s, a).workers && Step(s, a).workers[w] == s.workers[w]
    ensures forall w :: w in Step(s, a).workers ==> w in s.workers || (!a.Add? && !a.Trim? && w == a.w)
  {
    hide Process, Above, KeysOf;
  }

  lemma PhasesKept(s: State, a: Action)
    requires LogOk(s) && PhasesOk(s) && Enabled(s, a)
    ensures PhasesOk(Step(s, a))
  {
    var s' := Step(s, a);
    StepGrew(s, a);
    OthersUnmoved(s, a);
    if !a.Add? && !a.Trim? {
      NewPhaseOk(s, a);
    }
    hide PhaseOk, Grew, Step, Enabled;
    forall w | w in s'.workers ensures PhaseOk(s', s'.workers[w]) {
      if w in s.workers && s'.workers[w] == s.workers[w] {
        PhaseStaysOk(s, s', s.workers[w]);
      }
    }
  }

  /** Nothing settled becomes unsettled: a tombstone in hand ends up counted or lost. */
  lemma SettledStays(s: State, a: Action, id: Id)
    requires Enabled(s, a) && Settled(s, id)
    ensures Settled(Step(s, a), id)
  {
    var s' := Step(s, a);
    StepGrew(s, a);
    OthersUnmoved(s, a);
    if AboutToCount(s, id) && id !in s'.counted && id !in s'.lost {
      var w :| w in s.workers && s.workers[w].Counting? && id in s.workers[w].gone;
      hide Process, Above, KeysOf;
      assert s'.workers[w] == s.workers[w];
    }
    hide Step;
  }

  /** An entry that this step takes off the pending list is settled by it. */
  lemma LeavesSettled(s: State, a: Action, id: Id)
    requires LogOk(s) && PhasesOk(s) && Enabled(s, a)
    requires id in s.pel && id !in Step(s, a).pel
    ensures Settled(Step(s, a), id)
  {
    var s' := Step(s, a);
    hide Process, Above, KeysOf, Malformed;
    assert a.Ack? || a.AckGone? || a.Autoclaim?;
    PhaseAt(s, a.w);
    if a.Ack? {
      assert Stored(s', id) || Quarantined(s', id);
    } else if s'.workers[a.w].Counting? {
      assert AboutToCount(s', id);
    }
  }

  lemma NewlyDeliveredIsPending(s: State, a: Action, id: Id)
    requires Enabled(s, a) && id in Step(s, a).delivered && id !in s.delivered
    ensures id in Step(s, a).pel
  {
    hide Process, Above, KeysOf, Malformed;
  }

  lemma PendingKept(s: State, a: Action)
    requires LogOk(s) && PhasesOk(s) && PendingOk(s) && Enabled(s, a)
    ensures PendingOk(Step(s, a))
  {
    var s' := Step(s, a);
    hide Step, Enabled, LogOk, PhasesOk, Settled;
    forall id | id in s'.delivered && id !in s'.pel ensures Settled(s', id) {
      if id !in s.delivered {
        NewlyDeliveredIsPending(s, a, id);
      } else if id in s.pel {
        LeavesSettled(s, a, id);
      } else {
        SettledStays(s, a, id);
      }
    }
  }

  lemma StepKeeps(s: State, a: Action)
    requires Inv(s) && Enabled(s, a)
    ensures Inv(Step(s, a))
  {
    hide LogOk, EffectsOk, PhasesOk, PendingOk, Step, Enabled;
    LogKept(s, a);
    EffectsKept(s, a);
    PhasesKept(s, a);
    PendingKept(s, a);
  }

  // ----- runs -----

  ghost predicate IsRun(run: seq<State>, actions: seq<Action>) {
    && |run| == |actions| + 1 && run[0] == Init
    && forall k :: 0 <= k < |actions| ==> Enabled(run[k], actions[k]) && run[k + 1] == Step(run[k], actions[k])
  }

  lemma InitOk()
    ensures Inv(Init)
  {
  }

  lemma {:induction false} ReachableOk(run: seq<State>, actions: seq<Action>, k: nat)
    requires IsRun(run, actions) && k < |run|
    ensures Inv(run[k])
  {
    hide Inv, Step, Enabled;
    if k > 0 {
      ReachableOk(run, actions, k - 1);
      StepKeeps(run[k - 1], actions[k - 1]);
    } else {
      InitOk();
    }
  }

  /**
   * In every run, an entry that was delivered and is no longer pending has its row in positions, or its
   * bytes in the dead-letter stream, or was evicted: its data was already trimmed from the stream, and its
   * removal was counted, is about to be counted by the worker that made it, or went uncounted because
   * that worker crashed or lost a reply right there.
   */
  lemma PendingEntriesLeaveAccountedFor(run: seq<State>, actions: seq<Action>, k: nat, id: Id)
    requires IsRun(run, actions) && k < |run| && id in run[k].delivered && id !in run[k].pel
    ensures var s := run[k];
      Stored(s, id) || Quarantined(s, id) || Evicted(s, id)
  {
    ReachableOk(run, actions, k);
    var s := run[k];
    if AboutToCount(s, id) {
      var w :| w in s.workers && s.workers[w].Counting? && id in s.workers[w].gone;
      assert PhaseOk(s, s.workers[w]);
    }
  }

  /** The step that takes an entry off the pending list finds it settled already, or evicts it there and then. */
  lemma LeavingStepIsJustified(run: seq<State>, actions: seq<Action>, k: nat, id: Id)
    requires IsRun(run, actions) && k < |actions| && id in run[k].pel && id !in run[k + 1].pel
    ensures Stored(run[k], id) || Quarantined(run[k], id) || id !in run[k].stream
  {
    ReachableOk(run, actions, k);
    var s, a := run[k], actions[k];
    hide Process, Above, KeysOf, Malformed;
    assert run[k + 1] == Step(s, a);
    PhaseAt(s, a.w);
  }

  /** As long as the stream has not been trimmed, no pending entry is ever dropped unwritten. */
  lemma NothingLostUntrimmed(run: seq<State>, actions: seq<Action>, k: nat, id: Id)
    requires IsRun(run, actions) && k < |run| && id in run[k].delivered && id !in run[k].pel && id in run[k].stream
    ensures Stored(run[k], id) || Quarantined(run[k], id)
  {
    PendingEntriesLeaveAccountedFor(run, actions, k, id);
  }

  /** There is no row that no delivered entry asked for. */
  lemma RowsStem(run: seq<State>, actions: seq<Action>, k: nat)
    requires IsRun(run, actions) && k < |run|
    ensures run[k].table <= KeysOf(run[k].log, run[k].delivered) <= KeysOf(run[k].log, run[k].log.Keys)
  {
    ReachableOk(run, actions, k);
  }

  /** At rest, with nothing undelivered, pending or trimmed: every entry has its row or is quarantined,
      and there is no row that no entry asked for. */
  lemma DeliveredExactly(run: seq<State>, actions: seq<Action>, k: nat)
    requires IsRun(run, actions) && k < |run|
    requires var s := run[k]; s.stream == s.log.Keys && s.delivered == s.log.Keys && s.pel == map[]
    ensures var s := run[k];
      && (forall id :: id in s.log ==> Stored(s, id) || Quarantined(s, id))
      && s.table <= KeysOf(s.log, s.log.Keys)
      && (s.dead == map[] ==> s.table == KeysOf(s.log, s.log.Keys))
  {
    ReachableOk(run, actions, k);
    var s := run[k];
    forall id | id in s.log ensures Stored(s, id) || Quarantined(s, id) {
      NothingLostUntrimmed(run, actions, k, id);
    }
  }

  // ----- stretches of a run -----

  /** `t` is reached from `s` by some steps. */
  ghost predicate Reaches(s: State, t: State) {
    exists states, actions :: Stretch(states, actions) && states[0] == s && states[|actions|] == t
  }

  ghost predicate Stretch(states: seq<State>, actions: seq<Action>) {
    && |states| == |actions| + 1
    && forall k :: 0 <= k < |actions| ==> Enabled(states[k], actions[k]) && states[k + 1] == Step(states[k], actions[k])
  }

  lemma ReachesItself(s: State)
    ensures Reaches(s, s)
  {
    assert Stretch([s], []);
  }

  lemma ReachesNext(s: State, t: State, a: Action)
    requires Reaches(s, t) && Enabled(t, a)
    ensures Reaches(s, Step(t, a))
  {
    hide Step, Enabled;
    var states, actions :| Stretch(states, actions) && states[0] == s && states[|actions|] == t;
    assert Stretch(states + [Step(t, a)], actions + [a]);
  }

  /** What holds of every run holds of what is reached: no entry leaves the pending list unsettled. */
  lemma {:induction false} ReachesKeeps(s: State, t: State)
    requires Inv(s) && Reaches(s, t)
    ensures Inv(t)
  {
    var states, actions :| Stretch(states, actions) && states[0] == s && states[|actions|] == t;
    StretchKeeps(states, actions, |actions|);
  }

  lemma {:induction false} StretchKeeps(states: seq<State>, actions: seq<Action>, k: nat)
    requires Stretch(states, actions) && Inv(states[0]) && k < |states|
    ensures Inv(states[k])
  {
    if k > 0 {
      hide Inv, Step, Enabled;
      StretchKeeps(states, actions, k - 1);
      StepKeeps(states[k - 1], actions[k - 1]);
    }
  }

  // ----- a pending entry is never out of reach -----

  /** What a read brings is processed, its tombstones counted and off the list first: of new entries, all that the
      stream holds after the last delivered one up to the last read; of the worker's own, those still held. */
  lemma NewEntriesAreProcessed(s: State, w: WorkerId, last: Id)
    requires Enabled(s, ReadNew(w, last, true))
    ensures var t := Step(s, ReadNew(w, last, true));
      var got := set id | id in s.stream && s.lastDelivered < id <= last;
      && PhaseOf(t, w) == Process(s.log, got) && t.lastDelivered == last && last in got
      && forall id :: id in got ==> id in t.delivered && id in t.pel && t.pel[id] == w
  {
    hide Process, KeysOf, Above;
  }

  lemma OwnEntriesAreProcessed(s: State, w: WorkerId, ids: set<Id>) returns (t: State)
    requires Enabled(s, ReadOwn(w, ids))
    ensures Reaches(s, t) && PhaseOf(t, w) == Process(s.log, ids * s.stream)
    ensures t.pel == s.pel - (ids - s.stream) && ids - s.stream <= t.counted
  {
    hide Reaches, Process, KeysOf, Above;
    ReachesItself(s);
    ReachesNext(s, s, ReadOwn(w, ids));
    t := Step(s, ReadOwn(w, ids));
    if ids - s.stream != {} {
      ReachesNext(s, t, AckGone(w, true));
      t := Step(t, AckGone(w, true));
      ReachesNext(s, t, CountGone(w));
      t := Step(t, CountGone(w));
    } else {
      assert s.pel - {} == s.pel;
    }
  }

  lemma ClaimedEntriesAreProcessed(s: State, w: WorkerId, claim: set<Id>, drop: set<Id>) returns (t: State)
    requires Enabled(s, Autoclaim(w, claim, drop, true))
    ensures Reaches(s, t) && PhaseOf(t, w) == Process(s.log, claim) && drop <= t.counted
    ensures t.pel.Keys == s.pel.Keys - drop && forall id :: id in t.pel ==> t.pel[id] == if id in claim then w else s.pel[id]
  {
    hide Reaches, Process, KeysOf, Above;
    ReachesItself(s);
    ReachesNext(s, s, Autoclaim(w, claim, drop, true));
    t := Step(s, Autoclaim(w, claim, drop, true));
    ReachesNext(s, t, CountGone(w));
    t := Step(t, CountGone(w));
  }

  /** From `s` some steps lead to `t`, where the worker is in phase `p` and the entry holds what it held. */
  ghost predicate LedTo(s: State, t: State, w: WorkerId, p: Phase, id: Id) {
    Reaches(s, t) && PhaseOf(t, w) == p && id in s.log && id in t.log && t.log[id] == s.log[id]
  }

  /** One more step of the worker. */
  lemma LedFurther(s: State, t: State, w: WorkerId, p: Phase, id: Id, a: Action) returns (t': State)
    requires LedTo(s, t, w, p, id) && Enabled(t, a) && !a.Add? && !a.Trim? && a.w == w
    ensures t' == Step(t, a) && LedTo(s, t', w, PhaseOf(t', w), id)
  {
    hide Reaches, Process, Above, KeysOf;
    t' := Step(t, a);
    ReachesNext(s, t, a);
  }

  /** Any worker, whatever it was doing, can drop that, take the entry over and read it. */
  lemma PendingEntryCanBeTaken(s: State, w: WorkerId, id: Id) returns (t: State)
    requires id in s.log && id in s.pel && id in s.stream
    ensures LedTo(s, t, w, Process(s.log, {id}), id)
  {
    hide Reaches, Process, KeysOf, Above;
    ReachesItself(s);
    var t0 := LedFurther(s, s, w, PhaseOf(s, w), id, Drop(w));
    var t1 := LedFurther(s, t0, w, Idle, id, Autoclaim(w, {id}, {}, false));
    t := LedFurther(s, t1, w, Idle, id, ReadOwn(w, {id}));
    assert {id} - t1.stream == {} && {id} * t1.stream == {id};
  }

  /** Whatever state a run is in, a pending entry that the stream still holds can be settled: any worker has a way
      to its row or to its quarantined bytes, and off the pending list. */
  lemma PendingEntryCanBeSettled(s: State, w: WorkerId, id: Id)
    requires Inv(s) && id in s.pel && id in s.stream
    ensures exists t :: Reaches(s, t) && id !in t.pel && (Stored(t, id) || Quarantined(t, id))
  {
    hide Reaches, Process, KeysOf, Above;
    var t := PendingEntryCanBeTaken(s, w, id);
    ProcessOne(s.log, id);
    if s.log[id].key.None? {
      MalformedCanBeQuarantined(s, t, w, id);
    } else {
      RowCanBeInserted(s, t, w, id);
    }
  }

  lemma ProcessOne(log: map<Id, Payload>, id: Id)
    requires id in log
    ensures Process(log, {id}) == if log[id].key.None? then Quarantining({id}, {}, {}) else Quarantining({}, {}, {id})
  {
    if log[id].key.None? {
      assert Malformed(log, {id}) == {id};
    } else {
      assert Malformed(log, {id}) == {};
    }
  }

  lemma MalformedCanBeQuarantined(s: State, t: State, w: WorkerId, id: Id)
    requires LedTo(s, t, w, Quarantining({id}, {}, {}), id)
    ensures exists u :: Reaches(s, u) && id !in u.pel && Quarantined(u, id)
  {
    hide Reaches, Process, KeysOf, Above;
    var t1 := LedFurther(s, t, w, Quarantining({id}, {}, {}), id, Append(w, id));
    assert {id} - {id} == {};
    var t2 := LedFurther(s, t1, w, Quarantining({}, {id}, {}), id, Ack(w, id));
    assert Reaches(s, t2) && id !in t2.pel && Quarantined(t2, id);
  }

  lemma RowCanBeInserted(s: State, t: State, w: WorkerId, id: Id)
    requires LedTo(s, t, w, Quarantining({}, {}, {id}), id) && s.log[id].key.Some?
    ensures exists u :: Reaches(s, u) && id !in u.pel && Stored(u, id)
  {
    hide Reaches, Process, Above;
    var key := s.log[id].key.value;
    var t1 := LedFurther(s, t, w, Quarantining({}, {}, {id}), id, Advance(w));
    assert key in KeysOf(t1.log, {id});
    var t2 := LedFurther(s, t1, w, Inserting({id}), id, InsertSome(w, {key}));
    var t3 := LedFurther(s, t2, w, Inserting({id}), id, InsertDone(w, {}));
    StoredCanBeAcknowledged(s, t3, w, id);
  }

  lemma StoredCanBeAcknowledged(s: State, t: State, w: WorkerId, id: Id)
    requires LedTo(s, t, w, Rejecting({}, {id}), id) && Stored(t, id)
    ensures exists u :: Reaches(s, u) && id !in u.pel && Stored(u, id)
  {
    hide Reaches, Process, Above, KeysOf;
    var t4 := LedFurther(s, t, w, Rejecting({}, {id}), id, Advance(w));
    var t5 := LedFurther(s, t4, w, HandingOff({id}), id, HandOff(w));
    var t6 := LedFurther(s, t5, w, Acking({id}), id, Ack(w, id));
    assert Reaches(s, t6) && id !in t6.pel && Stored(t6, id);
  }

  // ----- the bisecting insert inside a run -----

  /** The rows the worker builds for its records. */
  ghost predicate RowsOf(log: map<Id, Payload>, records: set<Id>, rows: seq<Positions.Row>) {
    && (forall r :: r in rows ==> r.entry in records && r.entry in log && log[r.entry].key == Some(r.key))
    && (forall id :: id in records ==> exists r :: r in rows && r.entry == id)
  }

  function Entries(rows: seq<Positions.Row>): set<Id> {
    set r | r in rows :: r.entry
  }

  /** What the bisecting insert guarantees, whether it returns or throws, is what the steps of a run allow:
      the rows it committed are an InsertSome step, and its return is an InsertDone with the bad entries. */
  lemma BisectionIsInsertSteps(s: State, w: WorkerId, rows: seq<Positions.Row>, table': set<Positions.Key>)
    requires PhaseOf(s, w).Inserting? && RowsOf(s.log, PhaseOf(s, w).records, rows)
    requires s.table <= table' <= s.table + Positions.Keys(Positions.Good(rows))
    ensures var insert := InsertSome(w, table' - s.table);
      && Enabled(s, insert) && Step(s, insert) == s.(table := table')
      && (table' == s.table + Positions.Keys(Positions.Good(rows)) ==>
            Enabled(Step(s, insert), InsertDone(w, Entries(Positions.Bad(rows)))))
  {
    Positions.GoodMembers(rows);
    var records := PhaseOf(s, w).records;
    assert Positions.Keys(Positions.Good(rows)) <= KeysOf(s.log, records);
    assert s.table + (table' - s.table) == table';
    if table' == s.table + Positions.Keys(Positions.Good(rows)) {
      var s' := s.(table := table');
      forall id | id in records - Entries(Positions.Bad(rows)) ensures Stored(s', id) {
        var r :| r in rows && r.entry == id;
        assert r in Positions.Good(rows);
      }
    }
  }

  // ----- an eviction can go uncounted -----

  ghost predicate Reachable(s: State) {
    exists run, actions :: IsRun(run, actions) && run[|actions|] == s
  }

  lemma ReachStep(s: State, a: Action)
    requires Reachable(s) && Enabled(s, a)
    ensures Reachable(Step(s, a))
  {
    hide Step, Enabled;
    var run, actions :| IsRun(run, actions) && run[|actions|] == s;
    assert IsRun(run + [Step(s, a)], actions + [a]);
  }

  /** An entry whose removal as a tombstone left no trace: no row, no quarantined bytes, no count. */
  ghost predicate Untraced(s: State, id: Id) {
    id in s.delivered && id !in s.pel && !Stored(s, id) && !Quarantined(s, id) && id !in s.counted && !AboutToCount(s, id)
  }

  /** The tombstones this step removes, or has removed, without their being counted: a lost reply of the
      removal, or a crash right after it. */
  function CutOff(s: State, a: Action): set<Id> {
    match a
    case Autoclaim(_, _, drop, replied) => if replied then {} else drop
    case AckGone(w, replied) => if replied || !PhaseOf(s, w).AckTombstones? then {} else PhaseOf(s, w).gone
    case Drop(w) => if PhaseOf(s, w).Counting? then PhaseOf(s, w).gone else {}
    case _ => {}
  }

  lemma {:induction false} LostIsCutOff(run: seq<State>, actions: seq<Action>, k: nat, id: Id)
    requires IsRun(run, actions) && k < |run|
    ensures id in run[k].lost <==> exists j :: 0 <= j < k && id in CutOff(run[j], actions[j])
  {
    if k > 0 {
      LostIsCutOff(run, actions, k - 1, id);
      LostStep(run[k - 1], actions[k - 1]);
    }
  }

  lemma LostStep(s: State, a: Action)
    requires Enabled(s, a)
    ensures Step(s, a).lost == s.lost + CutOff(s, a)
  {
    hide Process, Above, KeysOf;
  }

  /** When exactly an entry leaves the pending list without a trace: only if a crash or a lost reply cut
      its removal off from its count. */
  lemma UntracedIsCutOff(run: seq<State>, actions: seq<Action>, k: nat, id: Id)
    requires IsRun(run, actions) && k < |run| && Untraced(run[k], id)
    ensures exists j :: 0 <= j < k && id in CutOff(run[j], actions[j])
  {
    ReachableOk(run, actions, k);
    LostIsCutOff(run, actions, k, id);
  }

  /** And every such cut does lose the trace of an entry that has none already. */
  lemma CutOffLosesTrace(run: seq<State>, actions: seq<Action>, k: nat, id: Id)
    requires IsRun(run, actions) && k < |actions| && id in CutOff(run[k], actions[k])
    requires !Stored(run[k], id) && !Quarantined(run[k], id) && id !in run[k].counted
    requires !AboutToCount(run[k + 1], id) && id !in run[k + 1].pel
    ensures Untraced(run[k + 1], id)
  {
    ReachableOk(run, actions, k);
    ReachableOk(run, actions, k + 1);
    LostIsCutOff(run, actions, k + 1, id);
    var s, a := run[k], actions[k];
    assert run[k + 1] == Step(s, a);
    hide Process, Above, KeysOf;
  }

  /** One entry, delivered to a worker that dies holding it, and trimmed from the stream. */
  function TrimmedWhilePending(p: Payload): State {
    State(map[0 := p], {}, 0, {0}, map[0 := 0], map[], {}, {}, {}, map[0 := Idle])
  }

  lemma TrimmedWhilePendingReachable(p: Payload)
    ensures Reachable(TrimmedWhilePending(p))
  {
    var log := map[0 := p];
    assert Reachable(Init) by {
      assert IsRun([Init], []);
    }
    hide Reachable;
    ReachStep(Init, Add(p));
    var s1 := State(log, {0}, -1, {}, map[], map[], {}, {}, {}, map[]);
    assert Step(Init, Add(p)) == s1;
    ReachStep(s1, ReadNew(0, 0, false));
    var s2 := State(log, {0}, 0, {0}, map[0 := 0], map[], {}, {}, {}, map[0 := Idle]);
    assert NewIds(s1, 0) == {0} && Step(s1, ReadNew(0, 0, false)) == s2;
    ReachStep(s2, Trim({0}));
    assert Step(s2, Trim({0})) == TrimmedWhilePending(p);
  }

  /** The worker comes back for its trimmed entry and acknowledges the tombstone away. */
  lemma TombstoneRemoved(p: Payload)
    ensures Reachable(TrimmedWhilePending(p).(pel := map[], workers := map[0 := Counting({0}, {})]))
  {
    TrimmedWhilePendingReachable(p);
    hide Reachable, Process, Above, KeysOf;
    var s3 := TrimmedWhilePending(p);
    ReachStep(s3, ReadOwn(0, {0}));
    var s4 := s3.(workers := map[0 := AckTombstones({0}, {})]);
    assert Step(s3, ReadOwn(0, {0})) == s4 by {
      assert {0} - s3.stream == {0} && {0} * s3.stream == {} && s3.workers[0 := AckTombstones({0}, {})] == s4.workers;
    }
    ReachStep(s4, AckGone(0, true));
    assert s4.pel - {0} == map[] && s4.workers[0 := Counting({0}, {})] == map[0 := Counting({0}, {})];
  }

  /** Such a run exists: the worker is interrupted between removing the tombstone and counting it. */
  lemma AnEvictionCanGoUncounted(key: Positions.Key)
    ensures exists s :: Reachable(s) && Untraced(s, 0)
  {
    var p := Payload(7, Some(key));
    TombstoneRemoved(p);
    hide Reachable, Process, Above, KeysOf;
    var s5 := TrimmedWhilePending(p).(pel := map[], workers := map[0 := Counting({0}, {})]);
    ReachStep(s5, Drop(0));
    assert Untraced(Step(s5, Drop(0)), 0);
  }
}
