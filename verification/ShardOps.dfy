/**
 * Starting and stopping the consumer of one shard in one worker process. Every start and stop goes
 * through the shard's promise chain, so operations run one after the other; callbacks that request
 * them, and the consumers themselves, run at any await in between. The maps of the process are
 * keyed by shard, so one shard is modelled.
 */
module ShardOps {
  import opened Options

  datatype Op = Start | Stop

  /** How far the loop of a consumer has come; it opens by ensuring the group once more. */
  datatype Stage = Unstarted | Opening | Looping | Over

  /** A ShardConsumer: its running flag, its loop, and whether its own connection is open. */
  datatype Consumer = Consumer(running: bool, stage: Stage, connected: bool)

  /** Where the operation at the head of the chain is waiting. */
  datatype Progress =
    | Idle
    | EnsuringGroup(c: nat)
    | GivingUp(c: nat)
    | WarmStarting(c: nat)
    | AwaitingStop(stopped: Option<nat>)

  /** `mapped` is the entry of consumersByShard, `conn` that of consumerConnByShard (by its consumer). */
  datatype State = State(
    consumers: seq<Consumer>, mapped: Option<nat>, conn: Option<nat>, queue: seq<Op>, progress: Progress)

  const Init := State([], None, None, [], Idle)

  datatype Action =
    /** The leaser gained the lease: startShardConsumer. */
    | Gained
    /** The leaser lost the lease: stopShardConsumer. */
    | Lost
    /** Consumer `c`, running or still draining, finds the lease gone before a batch. */
    | Fenced(c: nat)
    /** The loop of consumer `c` has ensured the group, or failed to. A failure before any stop is a rejection
        that nobody handles: it ends the process, so no step follows it. */
    | Opened(c: nat)
    | OpenFails(c: nat)
    /** The loop of a consumer whose running flag is down comes to its end. */
    | LoopEnds(c: nat)
    /** The next operation of the chain runs to its first await. */
    | Begin
    | GroupReady
    | GroupFailed
    /** giveUp has returned or thrown; either way the operation ends by rethrowing. */
    | GaveUp
    /** The warm start has finished or failed; either way the consumer starts. */
    | Warmed
    /** The consumer has drained, or the wait for it timed out. */
    | StopOver

  predicate MappedExists(s: State) {
    s.mapped.Some? ==> s.mapped.value < |s.consumers|
  }

  predicate Enabled(s: State, a: Action) {
    match a
    case Gained => true
    case Lost => true
    case Fenced(c) => c < |s.consumers| && s.consumers[c].stage.Looping?
    case Opened(c) => c < |s.consumers| && s.consumers[c].stage.Opening?
    case OpenFails(c) => c < |s.consumers| && s.consumers[c].stage.Opening? && !s.consumers[c].running
    case LoopEnds(c) => c < |s.consumers| && s.consumers[c].stage.Looping? && !s.consumers[c].running
    case Begin => s.progress.Idle? && s.queue != []
    case GroupReady => s.progress.EnsuringGroup? && s.progress.c < |s.consumers|
    case GroupFailed => s.progress.EnsuringGroup? && s.progress.c < |s.consumers|
    case GaveUp => s.progress.GivingUp?
    case Warmed => s.progress.WarmStarting? && s.progress.c < |s.consumers|
    case StopOver => s.progress.AwaitingStop? && (s.conn.Some? ==> s.conn.value < |s.consumers|)
  }

  /** The operation has ended and leaves the chain. */
  function Ended(s: State): State {
    s.(queue := if s.queue == [] then [] else s.queue[1..], progress := Idle)
  }

  function BeginOp(s: State): State
    requires s.queue != [] && MappedExists(s)
  {
    match s.queue[0]
    case Start =>
      if s.mapped.Some? then Ended(s)
      else s.(consumers := s.consumers + [Consumer(false, Unstarted, true)], progress := EnsuringGroup(|s.consumers|))
    case Stop =>
      if s.mapped.None? then s.(progress := AwaitingStop(None))
      else
        var c := s.mapped.value;
        s.(mapped := None, consumers := s.consumers[c := s.consumers[c].(running := false)], progress := AwaitingStop(s.mapped))
  }

  function Step(s: State, a: Action): State
    requires Enabled(s, a) && MappedExists(s)
  {
    match a
    case Gained => s.(queue := s.queue + [Start])
    case Lost => s.(queue := s.queue + [Stop])
    case Fenced(c) =>
      s.(consumers := s.consumers[c := s.consumers[c].(running := false, stage := Over)], queue := s.queue + [Stop])
    case Opened(c) => s.(consumers := s.consumers[c := s.consumers[c].(stage := Looping)])
    case OpenFails(c) =>
      // a stop that is waiting for this loop rethrows: the connection stays open and in its map
      var s' := s.(consumers := s.consumers[c := s.consumers[c].(stage := Over)]);
      if s.progress == AwaitingStop(Some(c)) then Ended(s') else s'
    case LoopEnds(c) => s.(consumers := s.consumers[c := s.consumers[c].(stage := Over)])
    case Begin => BeginOp(s)
    case GroupReady =>
      s.(conn := Some(s.progress.c), mapped := Some(s.progress.c), progress := WarmStarting(s.progress.c))
    case GroupFailed =>
      s.(consumers := s.consumers[s.progress.c := s.consumers[s.progress.c].(connected := false)],
         progress := GivingUp(s.progress.c))
    case GaveUp => Ended(s)
    case Warmed =>
      Ended(s.(consumers := s.consumers[s.progress.c := s.consumers[s.progress.c].(running := true, stage := Opening)]))
    case StopOver =>
      var closed := if s.conn.None? then s.consumers
                    else s.consumers[s.conn.value := s.consumers[s.conn.value].(connected := false)];
      Ended(s.(consumers := closed, conn := None))
  }

  // ----- invariant -----

  /** A stop that has not yet looked up the mapped consumer is somewhere in the chain. */
  ghost predicate StopPending(s: State) {
    exists k :: 0 <= k < |s.queue| && s.queue[k].Stop? && (k == 0 ==> s.progress.Idle?)
  }

  /** The consumer the current operation has created but not yet started. */
  function Created(p: Progress): Option<nat> {
    match p
    case EnsuringGroup(c) => Some(c)
    case GivingUp(c) => Some(c)
    case WarmStarting(c) => Some(c)
    case _ => None
  }

  /** `conn` is the mapped consumer's or the one being stopped; without either it may be a left-over. */
  ghost predicate ProgressOk(s: State) {
    && (s.mapped.Some? ==> s.conn == s.mapped)
    && (!s.progress.Idle? ==> s.queue != [])
    && match s.progress
       case Idle => true
       case EnsuringGroup(c) => s.queue[0].Start? && s.mapped.None?
       case GivingUp(c) => s.queue[0].Start? && s.mapped.None?
       case WarmStarting(c) => s.queue[0].Start? && s.mapped == Some(c)
       case AwaitingStop(c) => s.queue[0].Stop? && s.mapped.None? && (c.Some? ==> s.conn == c)
  }

  /** The consumer in the making has not run yet, and its connection is its own. */
  ghost predicate CreatedOk(s: State) {
    Created(s.progress).Some? ==>
      var c := Created(s.progress).value;
      c < |s.consumers| && !s.consumers[c].running && s.consumers[c].stage.Unstarted?
      && (s.progress.EnsuringGroup? ==> s.consumers[c].connected && s.conn != Some(c))
  }

  /** A running consumer is the mapped one and its loop runs. */
  ghost predicate RunningOk(s: State) {
    forall c :: 0 <= c < |s.consumers| && s.consumers[c].running ==>
      s.mapped == Some(c) && (s.consumers[c].stage.Opening? || s.consumers[c].stage.Looping?)
  }

  /** A mapped consumer runs, or is about to, or a stop for it is on its way. */
  ghost predicate MappedOk(s: State) {
    s.mapped.Some? ==>
      && s.mapped.value < |s.consumers|
      && (s.consumers[s.mapped.value].running || s.progress == WarmStarting(s.mapped.value) || StopPending(s))
  }

  ghost predicate ConnectionsOk(s: State) {
    (s.conn.Some? ==> s.conn.value < |s.consumers|) && forall c: nat :: InHand(s, c) ==> s.consumers[c].connected
  }

  ghost predicate Inv(s: State) {
    ProgressOk(s) && MappedExists(s) && CreatedOk(s) && RunningOk(s) && MappedOk(s) && ConnectionsOk(s)
  }

  /** The consumer is mapped or being stopped; its connection is open. */
  ghost predicate InHand(s: State, c: nat) {
    c < |s.consumers| && (s.mapped == Some(c) || s.progress == AwaitingStop(Some(c)))
  }

  lemma StepKeeps(s: State, a: Action)
    requires Inv(s) && Enabled(s, a)
    ensures Inv(Step(s, a))
  {
    ProgressKept(s, a);
    RunningKept(s, a);
    MappedKept(s, a);
    ConnectionsKept(s, a);
  }

  lemma ProgressKept(s: State, a: Action)
    requires Inv(s) && Enabled(s, a)
    ensures ProgressOk(Step(s, a)) && MappedExists(Step(s, a)) && CreatedOk(Step(s, a))
  {
    hide StopPending, InHand;
  }

  lemma RunningKept(s: State, a: Action)
    requires Inv(s) && Enabled(s, a)
    ensures RunningOk(Step(s, a))
  {
    hide StopPending, InHand;
  }

  lemma MappedKept(s: State, a: Action)
    requires Inv(s) && Enabled(s, a)
    ensures MappedOk(Step(s, a))
  {
    hide StopPending, InHand;
    if s.mapped.Some? {
      StopStaysPending(s, a);
    }
  }

  lemma ConnectionsKept(s: State, a: Action)
    requires Inv(s) && Enabled(s, a)
    ensures ConnectionsOk(Step(s, a))
  {
    hide StopPending, RunningOk;
    forall c: nat | InHand(Step(s, a), c) ensures Step(s, a).consumers[c].connected {
      assert InHand(s, c) ==> s.consumers[c].connected;
    }
  }

  /** A pending stop stays pending until it begins; a request to stop makes one pending. */
  lemma StopStaysPending(s: State, a: Action)
    requires Inv(s) && Enabled(s, a)
    ensures StopPending(s) && !a.Begin? ==> StopPending(Step(s, a))
    ensures StopPending(s) && a.Begin? && s.queue[0].Start? ==> StopPending(Step(s, a))
    ensures a.Lost? || a.Fenced? ==> StopPending(Step(s, a))
  {
    var s' := Step(s, a);
    if StopPending(s) && !(a.Begin? && s.queue[0].Stop?) {
      var k :| 0 <= k < |s.queue| && s.queue[k].Stop? && (k == 0 ==> s.progress.Idle?);
      if |s'.queue| >= |s.queue| {
        assert s'.queue[k] == s.queue[k];
      } else {
        assert s'.queue[k - 1] == s.queue[k];
      }
    }
    if a.Lost? || a.Fenced? {
      assert s'.queue[|s.queue|].Stop?;
    }
  }

  // ----- runs -----

  ghost predicate IsRun(run: seq<State>, actions: seq<Action>) {
    && |run| == |actions| + 1 && run[0] == Init
    && forall k :: 0 <= k < |actions| ==>
         && Enabled(run[k], actions[k])
         && MappedExists(run[k])
         && run[k + 1] == Step(run[k], actions[k])
  }

  lemma {:induction false} ReachableOk(run: seq<State>, actions: seq<Action>, k: nat)
    requires IsRun(run, actions) && k < |run|
    ensures Inv(run[k])
  {
    if k > 0 {
      hide Inv, Enabled, Step;
      ReachableOk(run, actions, k - 1);
      StepKeeps(run[k - 1], actions[k - 1]);
    } else {
      InitOk();
    }
  }

  lemma InitOk()
    ensures Inv(Init)
  {
  }

  /** Whatever callbacks arrive, starts fail and stops time out: at most one consumer of the shard has
      its running flag set, and that one is the mapped one. */
  lemma AtMostOneRuns(run: seq<State>, actions: seq<Action>, k: nat, a: nat, b: nat)
    requires IsRun(run, actions) && k < |run| && a < |run[k].consumers| && b < |run[k].consumers|
    requires run[k].consumers[a].running && run[k].consumers[b].running
    ensures a == b && run[k].mapped == Some(a)
  {
    ReachableOk(run, actions, k);
  }

  /** Between operations a mapped consumer is a running one: no shard is left mapped and never started. */
  lemma MappedMeansRunning(run: seq<State>, actions: seq<Action>, k: nat)
    requires IsRun(run, actions) && k < |run| && run[k].queue == []
    ensures run[k].mapped.Some? ==> run[k].mapped.value < |run[k].consumers| && run[k].consumers[run[k].mapped.value].running
    ensures run[k].mapped.None? ==> forall c :: 0 <= c < |run[k].consumers| ==> !run[k].consumers[c].running
  {
    ReachableOk(run, actions, k);
  }

  // ----- when a shard has its consumer -----

  /** Whether a consumer will be mapped once the chain has run dry, if nothing more happens to it. */
  ghost predicate Due(s: State) {
    var waiting := if s.progress.Idle? || s.queue == [] then s.queue else s.queue[1..];
    if waiting != [] then waiting[|waiting| - 1].Start?
    else s.progress.EnsuringGroup? || s.progress.WarmStarting? || (s.progress.Idle? && s.mapped.Some?)
  }

  /** The step undoes every start requested so far: a lost lease, a fence callback from whichever consumer, or
      a start that fails with no other operation waiting behind it. */
  ghost predicate Undoes(s: State, a: Action) {
    a.Lost? || a.Fenced? || (a.GroupFailed? && |s.queue| == 1)
  }

  /** Step `g` requested a start that nothing before `k` undid. */
  ghost predicate StartStands(run: seq<State>, actions: seq<Action>, g: nat, k: nat)
    requires |run| == |actions| + 1 && k < |run|
  {
    g < k && actions[g].Gained? && forall j :: g < j < k ==> !Undoes(run[j], actions[j])
  }

  lemma DueStep(s: State, a: Action)
    requires Inv(s) && Enabled(s, a)
    ensures Due(Step(s, a)) <==> a.Gained? || (Due(s) && !Undoes(s, a))
  {
    hide StopPending;
  }

  lemma StandsStep(run: seq<State>, actions: seq<Action>, k: nat, n: nat)
    requires |run| == |actions| + 1 && k + 1 == n < |run|
    ensures (exists g: nat :: StartStands(run, actions, g, n)) <==>
            actions[k].Gained?
            || ((exists g: nat :: StartStands(run, actions, g, k)) && !Undoes(run[k], actions[k]))
  {
    hide Undoes;
    if actions[k].Gained? {
      assert StartStands(run, actions, k, n);
    }
    if g: nat :| StartStands(run, actions, g, n) {
      assert g == k || StartStands(run, actions, g, k);
    }
    if (exists g: nat :: StartStands(run, actions, g, k)) && !Undoes(run[k], actions[k]) {
      var g: nat :| StartStands(run, actions, g, k);
      assert StartStands(run, actions, g, n);
    }
  }

  lemma {:induction false} DueIffStartedLast(run: seq<State>, actions: seq<Action>, k: nat)
    requires IsRun(run, actions) && k < |run|
    ensures Due(run[k]) <==> exists g: nat :: StartStands(run, actions, g, k)
  {
    if k > 0 {
      hide Due, Undoes, Inv, Enabled, Step;
      ReachableOk(run, actions, k - 1);
      DueStep(run[k - 1], actions[k - 1]);
      DueIffStartedLast(run, actions, k - 1);
      StandsStep(run, actions, k - 1, k);
    } else {
      assert !Due(Init);
    }
  }

  /** Between operations the shard has its consumer if and only if some gained lease was followed by no lost
      one, no fence callback and no failed start that was the last operation waiting. */
  lemma MappedIffStartedLast(run: seq<State>, actions: seq<Action>, k: nat)
    requires IsRun(run, actions) && k < |run| && run[k].queue == []
    ensures run[k].mapped.Some? <==> exists g: nat :: StartStands(run, actions, g, k)
  {
    ReachableOk(run, actions, k);
    hide Undoes;
    DueIffStartedLast(run, actions, k);
  }

  /** So after a gained lease, with starts that succeed, the consumer stays until the first lost lease or the
      first fence callback, and not longer. */
  lemma HeldLeaseKeepsItsConsumerIff(run: seq<State>, actions: seq<Action>, g: nat, k: nat)
    requires IsRun(run, actions) && g < k < |run| && actions[g].Gained? && run[k].queue == []
    requires forall j :: g < j < k ==> !actions[j].Gained? && !actions[j].GroupFailed?
    ensures run[k].mapped.Some? <==> forall j :: g < j < k ==> !actions[j].Lost? && !actions[j].Fenced?
  {
    if forall j :: g < j < k ==> !actions[j].Lost? && !actions[j].Fenced? {
      assert StartStands(run, actions, g, k);
    }
    MappedIffStartedLast(run, actions, k);
    if run[k].mapped.Some? {
      var g': nat :| StartStands(run, actions, g', k);
      assert g' <= g;
      assert forall j :: g < j < k ==> !Undoes(run[j], actions[j]);
    }
  }

  // ----- connections -----

  /** An open connection that belongs to no consumer mapped, starting or being stopped. */
  ghost predicate Leaked(s: State, c: nat) {
    && c < |s.consumers| && s.consumers[c].connected && !InHand(s, c) && s.progress != EnsuringGroup(c)
  }

  /** The loop that a stop is waiting for fails to open. */
  ghost predicate StopCutShort(s: State, a: Action, c: nat) {
    a == OpenFails(c) && s.progress == AwaitingStop(Some(c))
  }

  /** A later stop closes the connection left in the map. */
  ghost predicate Closes(s: State, a: Action, c: nat) {
    a.StopOver? && s.conn == Some(c)
  }

  /** Step `j` cut a stop of `c` short, and no stop before `k` closed the connection. */
  ghost predicate LeftOpen(run: seq<State>, actions: seq<Action>, j: nat, k: nat, c: nat)
    requires |run| == |actions| + 1 && k < |run|
  {
    j < k && StopCutShort(run[j], actions[j], c) && forall i :: j < i < k ==> !Closes(run[i], actions[i], c)
  }

  lemma LeftOpenStep(run: seq<State>, actions: seq<Action>, k: nat, n: nat, c: nat)
    requires |run| == |actions| + 1 && k + 1 == n < |run|
    ensures (exists j: nat :: LeftOpen(run, actions, j, n, c)) <==>
            StopCutShort(run[k], actions[k], c)
            || ((exists j: nat :: LeftOpen(run, actions, j, k, c)) && !Closes(run[k], actions[k], c))
  {
    hide StopCutShort, Closes;
    if StopCutShort(run[k], actions[k], c) {
      assert LeftOpen(run, actions, k, n, c);
    }
    if j: nat :| LeftOpen(run, actions, j, n, c) {
      assert j == k || LeftOpen(run, actions, j, k, c);
    }
    if (exists j: nat :: LeftOpen(run, actions, j, k, c)) && !Closes(run[k], actions[k], c) {
      var j: nat :| LeftOpen(run, actions, j, k, c);
      assert LeftOpen(run, actions, j, n, c);
    }
  }

  lemma LeakStep(s: State, a: Action, c: nat)
    requires Inv(s) && Enabled(s, a)
    ensures Leaked(Step(s, a), c) <==> StopCutShort(s, a, c) || (Leaked(s, c) && !Closes(s, a, c))
  {
    hide StopPending;
    assert InHand(s, c) ==> s.consumers[c].connected;
    if a.Begin? && s.mapped.Some? {
      assert InHand(s, s.mapped.value);
    }
  }

  /** A connection is left open exactly when a stop was cut short by the failing loop it waited for, and no
      later stop has closed what that left in the map. */
  lemma {:induction false} LeakedIffStopCutShort(run: seq<State>, actions: seq<Action>, k: nat, c: nat)
    requires IsRun(run, actions) && k < |run|
    ensures Leaked(run[k], c) <==> exists j: nat :: LeftOpen(run, actions, j, k, c)
  {
    if k > 0 {
      hide Leaked, StopCutShort, Closes, Inv, Enabled, Step;
      ReachableOk(run, actions, k - 1);
      LeakStep(run[k - 1], actions[k - 1], c);
      LeakedIffStopCutShort(run, actions, k - 1, c);
      LeftOpenStep(run, actions, k - 1, k, c);
    }
  }

  /** Between operations every open connection is the mapped consumer's or such a left-over: failed starts and
      stops that time out leak none. */
  lemma NoOtherConnectionLeaks(run: seq<State>, actions: seq<Action>, k: nat, c: nat)
    requires IsRun(run, actions) && k < |run| && run[k].queue == []
    requires c < |run[k].consumers| && run[k].consumers[c].connected && run[k].mapped != Some(c)
    ensures exists j: nat :: LeftOpen(run, actions, j, k, c)
  {
    ReachableOk(run, actions, k);
    hide StopCutShort, Closes;
    LeakedIffStopCutShort(run, actions, k, c);
  }

  ghost predicate Reachable(s: State) {
    exists run, actions :: IsRun(run, actions) && run[|actions|] == s
  }

  lemma ReachStep(s: State, a: Action)
    requires Reachable(s) && Enabled(s, a) && MappedExists(s)
    ensures Reachable(Step(s, a))
  {
    var run, actions :| IsRun(run, actions) && run[|actions|] == s;
    assert IsRun(run + [Step(s, a)], actions + [a]);
  }

  /** From rest, a gained lease and a successful start; the new consumer's loop is about to open. */
  lemma StartSucceeds(cs: seq<Consumer>, conn: Option<nat>)
    requires Reachable(State(cs, None, conn, [], Idle)) && (conn.Some? ==> conn.value < |cs|)
    ensures Reachable(State(cs + [Consumer(true, Opening, true)], Some(|cs|), Some(|cs|), [], Idle))
  {
    hide Reachable;
    var c, more := |cs|, cs + [Consumer(false, Unstarted, true)];
    ReachStep(State(cs, None, conn, [], Idle), Gained);
    ReachStep(State(cs, None, conn, [Start], Idle), Begin);
    ReachStep(State(more, None, conn, [Start], EnsuringGroup(c)), GroupReady);
    ReachStep(State(more, Some(c), Some(c), [Start], WarmStarting(c)), Warmed);
    assert more[c := Consumer(true, Opening, true)] == cs + [Consumer(true, Opening, true)];
  }

  /** From rest, a loop that opens, a lost lease and a stop whose wait times out: the loop is still draining. */
  lemma StopTimesOut(cs: seq<Consumer>, c: nat)
    requires c < |cs| && cs[c] == Consumer(true, Opening, true) && Reachable(State(cs, Some(c), Some(c), [], Idle))
    ensures Reachable(State(cs[c := Consumer(false, Looping, false)], None, None, [], Idle))
  {
    hide Reachable;
    var open, less := cs[c := Consumer(true, Looping, true)], cs[c := Consumer(false, Looping, true)];
    ReachStep(State(cs, Some(c), Some(c), [], Idle), Opened(c));
    ReachStep(State(open, Some(c), Some(c), [], Idle), Lost);
    ReachStep(State(open, Some(c), Some(c), [Stop], Idle), Begin);
    assert open[c := Consumer(false, Looping, true)] == less;
    ReachStep(State(less, None, Some(c), [Stop], AwaitingStop(Some(c))), StopOver);
    assert less[c := Consumer(false, Looping, false)] == cs[c := Consumer(false, Looping, false)];
  }

  lemma InitReachable()
    ensures Reachable(Init)
  {
    assert IsRun([Init], []);
  }

  /** A consumer still draining after its stop timed out, and its running successor. */
  lemma SuccessorBesideDrainingConsumer()
    ensures Reachable(State([Consumer(false, Looping, false), Consumer(true, Opening, true)], Some(1), Some(1), [], Idle))
  {
    InitReachable();
    StartSucceeds([], None);
    assert [] + [Consumer(true, Opening, true)] == [Consumer(true, Opening, true)];
    StopTimesOut([Consumer(true, Opening, true)], 0);
    StartSucceeds([Consumer(false, Looping, false)], None);
  }

  /** Fenced late, the draining consumer takes its successor down with it: no lease was lost since the
      successor was started, every operation has ended, and no consumer is mapped. */
  lemma LateFenceStopsSuccessor() returns (s: State)
    ensures Reachable(s) && s.queue == [] && s.progress.Idle? && s.mapped == Some(1) && |s.consumers| == 2
    ensures s.consumers[1].running && !s.consumers[0].running && Enabled(s, Fenced(0))
    ensures var fenced := Step(s, Fenced(0));
      && Enabled(fenced, Begin)
      && Enabled(Step(fenced, Begin), StopOver)
      && Step(Step(fenced, Begin), StopOver).queue == []
      && Step(Step(fenced, Begin), StopOver).mapped == None
  {
    SuccessorBesideDrainingConsumer();
    s := State([Consumer(false, Looping, false), Consumer(true, Opening, true)], Some(1), Some(1), [], Idle);
  }

  /** A loop that fails to open under the stop that waits for it leaves the connection in the map. */
  lemma StopIsCutShort()
    ensures Reachable(State([Consumer(false, Over, true)], None, Some(0), [], Idle))
  {
    var one, less, over := Consumer(true, Opening, true), Consumer(false, Opening, true), Consumer(false, Over, true);
    InitReachable();
    StartSucceeds([], None);
    assert [] + [one] == [one] && [one][0 := less] == [less] && [less][0 := over] == [over];
    hide Reachable;
    ReachStep(State([one], Some(0), Some(0), [], Idle), Lost);
    ReachStep(State([one], Some(0), Some(0), [Stop], Idle), Begin);
    ReachStep(State([less], None, Some(0), [Stop], AwaitingStop(Some(0))), OpenFails(0));
  }

  /** A stop cut short does leak: two open connections, of which only the successor's can ever be closed. */
  lemma StopCutShortLeaks()
    ensures exists s :: Reachable(s) && s.queue == [] && s.mapped == Some(1) && s.conn == Some(1) && Leaked(s, 0)
  {
    StopIsCutShort();
    StartSucceeds([Consumer(false, Over, true)], Some(0));
    hide Reachable;
    assert Leaked(State([Consumer(false, Over, true)] + [Consumer(true, Opening, true)], Some(1), Some(1), [], Idle), 0);
  }

  // ----- the chain always moves on -----

  /** A bound on the steps the chain still has to take. */
  function StepsLeft(s: State): int {
    3 * |s.queue| - match s.progress
                    case Idle => 0
                    case EnsuringGroup(_) => 1
                    case _ => 2
  }

  /** A step of the queued operations themselves, as opposed to a callback or the loop of a consumer. */
  predicate OfChain(a: Action) {
    a.Begin? || a.GroupReady? || a.GaveUp? || a.Warmed? || a.StopOver?
  }

  lemma ChainNeverStuck(s: State) returns (a: Action)
    requires Inv(s) && s.queue != []
    ensures Enabled(s, a) && OfChain(a) && StepsLeft(Step(s, a)) < StepsLeft(s)
  {
    a := match s.progress
      case Idle => Begin
      case EnsuringGroup(_) => GroupReady
      case GivingUp(_) => GaveUp
      case WarmStarting(_) => Warmed
      case AwaitingStop(_) => StopOver;
  }

  /** However starts and stops have piled up, the chain can work all of them off within three steps each. */
  lemma {:induction false} QueueRunsEmpty(s: State) returns (states: seq<State>, actions: seq<Action>)
    requires Inv(s)
    ensures |states| == |actions| + 1 <= StepsLeft(s) + 1 && states[0] == s && states[|actions|].queue == []
    ensures forall k :: 0 <= k < |actions| ==> Inv(states[k]) && Enabled(states[k], actions[k]) && OfChain(actions[k])
                                               && states[k + 1] == Step(states[k], actions[k])
    decreases StepsLeft(s)
  {
    states, actions := [s], [];
    if s.queue != [] {
      var a := ChainNeverStuck(s);
      StepKeeps(s, a);
      hide Inv, Step, Enabled;
      var later, rest := QueueRunsEmpty(Step(s, a));
      states, actions := states + later, [a] + rest;
    }
  }
}
