/**
 * The ingest side: one data frame of a streaming session is parsed, its records are persisted, and
 * only then is it acknowledged. The journal lists, in order, what took effect outside the process.
 */
module Ingest {
  import opened Bytes
  import opened Framer
  import opened Walk
  import opened Parse
  import Pipeline
  import Positions
  import opened Options

  datatype SanityConfig = SanityConfig(minTsMs: int, maxFutureMs: int)

  datatype Reason = FixTime | Coords

  /** Degrees in units of 1e-7. */
  const DEGREE := 10_000_000

  function Abs(x: int): int {
    if x < 0 then -x else x
  }

  function SanityFailure(rec: AvlRecord, config: SanityConfig, now: int): Option<Reason> {
    if rec.tsMs < config.minTsMs || rec.tsMs > now + config.maxFutureMs then Some(FixTime)
    else if Abs(rec.lat) > 90 * DEGREE || Abs(rec.lon) > 180 * DEGREE then Some(Coords)
    else None
  }

  predicate Sane(rec: AvlRecord, config: SanityConfig, now: int) {
    SanityFailure(rec, config, now).None?
  }

  datatype Target = Target(deviceId: int, imei: seq<byte>)

  /** The payload of a shard stream entry. */
  datatype Entry = Entry(target: Target, serverTimeMs: int, rec: AvlRecord)

  /** Something that took effect: an append to the shard stream, to `rejects`, to the parked frames or to the
      command responses, or an ACK. */
  datatype Event =
    | Streamed(entry: Entry)
    | Diverted(imei: seq<byte>, rec: AvlRecord, reason: Reason)
    | Parked(imei: seq<byte>, frame: seq<byte>)
    | Pushed(deviceId: int, response: Packet)
    | Acked(n: nat)

  /** How a write ends: it took effect, it was refused, or it took effect with an error instead of a reply. */
  datatype Xadd = Added | Refused | Unconfirmed

  /** What the append of a record is, whether or not it succeeds. */
  function EventOf(target: Target, rec: AvlRecord, config: SanityConfig, now: int): Event {
    match SanityFailure(rec, config, now)
    case None => Streamed(Entry(target, now, rec))
    case Some(reason) => Diverted(target.imei, rec, reason)
  }

  /** The journal accounts for the record. */
  predicate Kept(journal: seq<Event>, target: Target, rec: AvlRecord) {
    exists e :: e in journal &&
      ((e.Streamed? && e.entry.target == target && e.entry.rec == rec) || (e.Diverted? && e.imei == target.imei && e.rec == rec))
  }

  /** The appends of a batch, in pipeline order: first the insane records, then the good ones. */
  function Commands(target: Target, records: seq<AvlRecord>, config: SanityConfig, now: int): seq<Event> {
    Selected(target, records, config, now, false) + Selected(target, records, config, now, true)
  }

  function Selected(target: Target, records: seq<AvlRecord>, config: SanityConfig, now: int, sane: bool): seq<Event> {
    if records == [] then []
    else
      var n := |records| - 1;
      var front := Selected(target, records[..n], config, now, sane);
      if Sane(records[n], config, now) == sane then front + [EventOf(target, records[n], config, now)] else front
  }

  predicate InWindow(rec: AvlRecord, config: SanityConfig, now: int) {
    config.minTsMs <= rec.tsMs <= now + config.maxFutureMs
  }

  predicate OnEarth(rec: AvlRecord) {
    -90 * DEGREE <= rec.lat <= 90 * DEGREE && -180 * DEGREE <= rec.lon <= 180 * DEGREE
  }

  /** A record goes to the shard stream, with the time of its arrival, exactly when its fix time and its position
      are plausible; otherwise to `rejects`, where a bad fix time is named before a bad position. */
  lemma RecordGoesTo(target: Target, rec: AvlRecord, config: SanityConfig, now: int)
    ensures var e := EventOf(target, rec, config, now);
      && (e == Streamed(Entry(target, now, rec)) <==> InWindow(rec, config, now) && OnEarth(rec))
      && (e == Diverted(target.imei, rec, FixTime) <==> !InWindow(rec, config, now))
      && (e == Diverted(target.imei, rec, Coords) <==> InWindow(rec, config, now) && !OnEarth(rec))
  {
  }

  /** Records keep their order on either side. */
  lemma {:induction false} SelectedKeepsOrder(
      target: Target, a: seq<AvlRecord>, b: seq<AvlRecord>, config: SanityConfig, now: int, sane: bool)
    ensures Selected(target, a + b, config, now, sane) ==
            Selected(target, a, config, now, sane) + Selected(target, b, config, now, sane)
  {
    hide SanityFailure;
    if b == [] {
      assert a + b == a;
    } else {
      var n := |b| - 1;
      assert (a + b)[..|a| + n] == a + b[..n];
      SelectedKeepsOrder(target, a, b[..n], config, now, sane);
    }
  }

  /** The commands that took effect. */
  function Effects(commands: seq<Event>, outcome: nat -> Xadd): seq<Event> {
    if commands == [] then []
    else
      var n := |commands| - 1;
      if outcome(n).Refused? then Effects(commands[..n], outcome) else Effects(commands[..n], outcome) + [commands[n]]
  }

  /** The replies without an error. */
  function Confirmed(commands: seq<Event>, outcome: nat -> Xadd): nat {
    if commands == [] then 0
    else
      var n := |commands| - 1;
      Confirmed(commands[..n], outcome) + if outcome(n).Added? then 1 else 0
  }

  lemma {:induction false} SelectedMembers(target: Target, records: seq<AvlRecord>, config: SanityConfig, now: int, sane: bool)
    ensures forall e :: e in Selected(target, records, config, now, sane) <==>
              exists r :: r in records && Sane(r, config, now) == sane && e == EventOf(target, r, config, now)
    ensures |Selected(target, records, config, now, true)| + |Selected(target, records, config, now, false)| == |records|
  {
    hide SanityFailure;
    if records != [] {
      var n := |records| - 1;
      SelectedMembers(target, records[..n], config, now, sane);
      assert records == records[..n] + [records[n]];
      assert forall r :: r in records <==> r in records[..n] || r == records[n];
    }
  }

  lemma {:induction false} AllConfirmed(commands: seq<Event>, outcome: nat -> Xadd)
    ensures Confirmed(commands, outcome) <= |commands|
    ensures Confirmed(commands, outcome) == |commands| ==> Effects(commands, outcome) == commands
    ensures forall e :: e in Effects(commands, outcome) ==> e in commands
  {
    if commands != [] {
      var n := |commands| - 1;
      AllConfirmed(commands[..n], outcome);
      assert commands == commands[..n] + [commands[n]];
    }
  }

  /** What took effect is each command that was not refused, answered or not, and nothing more. */
  lemma {:induction false} EffectsAreExact(commands: seq<Event>, outcome: nat -> Xadd)
    ensures forall k :: 0 <= k < |commands| && !outcome(k).Refused? ==> commands[k] in Effects(commands, outcome)
    ensures |Effects(commands, outcome)| == |LandedBelow(|commands|, outcome)|
  {
    if commands != [] {
      var n := |commands| - 1;
      EffectsAreExact(commands[..n], outcome);
      assert LandedBelow(n + 1, outcome) == LandedBelow(n, outcome) + if outcome(n).Refused? then {} else {n};
    }
  }

  class Session {
    var journal: seq<Event>
    var streaming: bool
    const target: Target
    const config: SanityConfig

    constructor (target: Target, config: SanityConfig)
      ensures journal == [] && streaming && this.target == target && this.config == config
    {
      journal, streaming := [], true;
      this.target, this.config := target, config;
    }

    /** persistAvlBatch: how many records are certainly persisted. */
    method PersistAvlBatch(records: seq<AvlRecord>, now: int, outcome: nat -> Xadd) returns (persisted: nat)
      modifies this`journal
      ensures var commands := Commands(target, records, config, now);
        journal == old(journal) + Effects(commands, outcome) && persisted == Confirmed(commands, outcome)
    {
      var insane, good: seq<Event> := [], [];
      for i := 0 to |records|
        invariant insane == Selected(target, records[..i], config, now, false)
        invariant good == Selected(target, records[..i], config, now, true)
      {
        hide SanityFailure;
        assert records[..i + 1][..i] == records[..i];
        if Sane(records[i], config, now) {
          good := good + [EventOf(target, records[i], config, now)];
        } else {
          insane := insane + [EventOf(target, records[i], config, now)];
        }
      }
      assert records[..|records|] == records;
      var commands := insane + good;
      persisted := 0;
      assert old(journal) + [] == old(journal);
      for i := 0 to |commands|
        invariant journal == old(journal) + Effects(commands[..i], outcome)
        invariant persisted == Confirmed(commands[..i], outcome)
      {
        assert commands[..i + 1][..i] == commands[..i];
        assert old(journal) + (Effects(commands[..i], outcome) + [commands[i]]) ==
               (old(journal) + Effects(commands[..i], outcome)) + [commands[i]];
        if !outcome(i).Refused? { journal := journal + [commands[i]]; }
        if outcome(i).Added? { persisted := persisted + 1; }
      }
      assert commands[..|commands|] == commands;
    }

    /** handleStreamFrame, up to the end of the session if it throws or the device is no longer registered. */
    method HandleStreamFrame(lib: Lib, frame: Frame, env: Env) returns (ack: Option<nat>)
      requires streaming
      modifies this
      ensures var h := Handle(lib, target, config, frame, env);
        journal == old(journal) + h.kept + AckEvent(h.ack) && ack == h.ack && streaming == h.streaming
      ensures RightAnswer(lib, target, frame, env, ack) && (streaming <==> !EndsSession(lib, target, frame, env))
    {
      HandlingIsRight(lib, target, config, frame, env);
      hide ParseFrame;
      ack := None;
      ghost var before := journal;
      assert before + [] == before;
      match ParseFrame(lib, frame) {
        case Undecodable(declared) =>
          if !env.park.Refused? { journal := journal + [Parked(target.imei, frame.bytes)]; }
          if !env.park.Added? { streaming := false; return; }
          journal := journal + [Acked(declared)];
          ack := Some(declared);
          streaming := env.survives;
        case CrcError =>
          journal := journal + [Acked(0)];
          ack := Some(0);
        case FrameError =>
          journal := journal + [Acked(0)];
          ack := Some(0);
        case RangeError => streaming := false;
        case Parsed(CmdResponse(codec, text, nack)) =>
          if !env.push.Refused? { journal := journal + [Pushed(target.deviceId, CmdResponse(codec, text, nack))]; }
          streaming := env.push.Added?;
        case Parsed(ImeiPacket(_)) =>
        case Parsed(AvlPacket(_, records)) =>
          if env.mapped != Some(target.deviceId) { streaming := false; return; }
          var persisted := PersistAvlBatch(records, env.now, env.outcome);
          journal := journal + [Acked(persisted)];
          ack := Some(persisted);
          streaming := env.survives;
      }
    }

    /** The loop of onData over the frames of one chunk, once the session is streaming. */
    method HandleFrames(lib: Lib, frames: seq<Frame>, envs: seq<Env>)
      requires |envs| == |frames| && streaming
      modifies this
      ensures journal == old(journal) + HandleAll(lib, target, config, frames, envs)
    {
      EndsOfFrames(lib, target, config, frames, envs);
      hide Handle, HandleAll, AckEvent, RestOf;
      ghost var was := journal;
      assert was + [] == was;
      var i := 0;
      while i < |frames| && streaming
        invariant i <= |frames|
        invariant was + HandleAll(lib, target, config, frames, envs) ==
                  journal + if streaming then RestOf(lib, target, config, frames, envs, i) else []
      {
        FrameStep(lib, target, config, frames, envs, i, journal);
        var _ := HandleStreamFrame(lib, frames[i], envs[i]);
        i := i + 1;
      }
    }
  }

  /** The events of the frames from `i` on. */
  ghost function RestOf(lib: Lib, target: Target, config: SanityConfig, frames: seq<Frame>, envs: seq<Env>, i: nat): seq<Event>
    requires |envs| == |frames| && i <= |frames|
  {
    HandleAll(lib, target, config, frames[i..], envs[i..])
  }

  lemma EndsOfFrames(lib: Lib, target: Target, config: SanityConfig, frames: seq<Frame>, envs: seq<Env>)
    requires |envs| == |frames|
    ensures RestOf(lib, target, config, frames, envs, 0) == HandleAll(lib, target, config, frames, envs)
    ensures RestOf(lib, target, config, frames, envs, |frames|) == []
  {
    assert frames[0..] == frames && envs[0..] == envs;
  }

  lemma FrameStep(lib: Lib, target: Target, config: SanityConfig, frames: seq<Frame>, envs: seq<Env>, i: nat, was: seq<Event>)
    requires |envs| == |frames| && i < |frames|
    ensures var h := Handle(lib, target, config, frames[i], envs[i]);
      was + RestOf(lib, target, config, frames, envs, i) ==
      was + h.kept + AckEvent(h.ack) + if h.streaming then RestOf(lib, target, config, frames, envs, i + 1) else []
  {
    hide Handle, AckEvent;
    var h := Handle(lib, target, config, frames[i], envs[i]);
    assert frames[i..][1..] == frames[i + 1..] && envs[i..][1..] == envs[i + 1..];
    var rest := if h.streaming then RestOf(lib, target, config, frames, envs, i + 1) else [];
    assert was + (h.kept + AckEvent(h.ack) + rest) == was + h.kept + AckEvent(h.ack) + rest;
  }

  /** What the surroundings answer while one frame is handled: the registry, the clock, how parking a frame,
      pushing a command response and each pipelined append end, and whether the session survives the depth
      check and the command delivery that follow an ACK. */
  datatype Env = Env(mapped: Option<int>, now: int, park: Xadd, push: Xadd, outcome: nat -> Xadd, survives: bool)

  datatype Handling = Handling(kept: seq<Event>, ack: Option<nat>, streaming: bool)

  function AckEvent(ack: Option<nat>): seq<Event> {
    match ack
    case None => []
    case Some(n) => [Acked(n)]
  }

  function Handle(lib: Lib, target: Target, config: SanityConfig, frame: Frame, env: Env): Handling {
    match ParseFrame(lib, frame)
    case Undecodable(declared) =>
      var kept := if env.park.Refused? then [] else [Parked(target.imei, frame.bytes)];
      if env.park.Added? then Handling(kept, Some(declared), env.survives) else Handling(kept, None, false)
    case CrcError => Handling([], Some(0), true)
    case FrameError => Handling([], Some(0), true)
    case RangeError => Handling([], None, false)
    case Parsed(AvlPacket(_, records)) =>
      if env.mapped != Some(target.deviceId) then Handling([], None, false)
      else
        var commands := Commands(target, records, config, env.now);
        Handling(Effects(commands, env.outcome), Some(Confirmed(commands, env.outcome)), env.survives)
    case Parsed(CmdResponse(codec, text, nack)) =>
      Handling(if env.push.Refused? then [] else [Pushed(target.deviceId, CmdResponse(codec, text, nack))], None, env.push.Added?)
    case Parsed(ImeiPacket(_)) => Handling([], None, true)
  }

  /** The positions below `n` whose append is confirmed. */
  ghost function AddedBelow(n: nat, outcome: nat -> Xadd): set<nat> {
    set k | 0 <= k < n && outcome(k).Added?
  }

  /** The answer a frame must get, from how its parse and its writes end: as many records as were confirmed, the
      declared count of a frame that is certainly parked, zero for a corrupt one, and otherwise none. */
  ghost predicate RightAnswer(lib: Lib, target: Target, frame: Frame, env: Env, ack: Option<nat>) {
    match ParseFrame(lib, frame)
    case Parsed(AvlPacket(_, records)) =>
      ack == if env.mapped == Some(target.deviceId) then Some(|AddedBelow(|records|, env.outcome)|) else None
    case Undecodable(declared) => ack == if env.park.Added? then Some(declared) else None
    case CrcError => ack == Some(0)
    case FrameError => ack == Some(0)
    case _ => ack == None
  }

  /** The frame is the last one of its session. */
  ghost predicate EndsSession(lib: Lib, target: Target, frame: Frame, env: Env) {
    match ParseFrame(lib, frame)
    case Parsed(AvlPacket(_, _)) => env.mapped != Some(target.deviceId) || !env.survives
    case Undecodable(_) => !env.park.Added? || !env.survives
    case Parsed(CmdResponse(_, _, _)) => !env.push.Added?
    case RangeError => true
    case _ => false
  }

  lemma {:induction false} ConfirmedIsAddedBelow(commands: seq<Event>, outcome: nat -> Xadd)
    ensures Confirmed(commands, outcome) == |AddedBelow(|commands|, outcome)|
  {
    if commands != [] {
      var n := |commands| - 1;
      ConfirmedIsAddedBelow(commands[..n], outcome);
      assert AddedBelow(n + 1, outcome) == AddedBelow(n, outcome) + if outcome(n).Added? then {n} else {};
    }
  }

  lemma HandlingIsRight(lib: Lib, target: Target, config: SanityConfig, frame: Frame, env: Env)
    ensures var h := Handle(lib, target, config, frame, env);
      RightAnswer(lib, target, frame, env, h.ack) && (h.streaming <==> !EndsSession(lib, target, frame, env))
  {
    hide ParseFrame, Commands, AddedBelow;
    match ParseFrame(lib, frame) {
      case Parsed(AvlPacket(_, records)) =>
        CommandsKeepRecords(target, records, config, env.now);
        ConfirmedIsAddedBelow(Commands(target, records, config, env.now), env.outcome);
      case _ =>
    }
  }

  /** The positions below `n` whose append was not refused, confirmed or not. */
  ghost function LandedBelow(n: nat, outcome: nat -> Xadd): set<nat> {
    set k | 0 <= k < n && !outcome(k).Refused?
  }

  /** What a frame leaves behind: an append of its own for each position that was not refused, the parked frame, or
      the pushed response, and nothing if it is corrupt or the device is not the session's. */
  lemma KeptIsExact(lib: Lib, target: Target, config: SanityConfig, frame: Frame, env: Env)
    ensures var kept := Handle(lib, target, config, frame, env).kept;
      match ParseFrame(lib, frame)
      case Parsed(AvlPacket(_, records)) =>
        if env.mapped != Some(target.deviceId) then kept == []
        else |kept| == |LandedBelow(|records|, env.outcome)| && multiset(kept) <= multiset(Commands(target, records, config, env.now))
      case Parsed(CmdResponse(codec, text, nack)) =>
        |kept| <= 1 && (env.push.Refused? <==> Pushed(target.deviceId, CmdResponse(codec, text, nack)) !in kept)
      case Undecodable(_) => |kept| <= 1 && (env.park.Refused? <==> Parked(target.imei, frame.bytes) !in kept)
      case _ => kept == []
  {
    hide ParseFrame, Commands;
    match ParseFrame(lib, frame) {
      case Parsed(AvlPacket(_, records)) =>
        var commands := Commands(target, records, config, env.now);
        CommandsKeepRecords(target, records, config, env.now);
        EffectsAreExact(commands, env.outcome);
        EffectsAreCommands(commands, env.outcome);
      case _ =>
    }
  }

  /** The right answer to an AVL packet of the mapped device is the count its frame declares if and only if every
      append was confirmed: short of that the device resends, and with it the device moves on. */
  lemma FullAckIff(lib: Lib, target: Target, frame: Frame, env: Env, ack: Option<nat>)
    requires frame.kind == Avl && ParseFrame(lib, frame).Parsed? && ParseFrame(lib, frame).packet.AvlPacket?
    requires env.mapped == Some(target.deviceId) && RightAnswer(lib, target, frame, env, ack)
    ensures |frame.bytes| > 9
    ensures ack == Some(frame.bytes[9]) <==> forall n: nat :: n < frame.bytes[9] ==> env.outcome(n).Added?
  {
    ParsedCountIsDeclared(lib, frame);
    hide ParseFrame;
    var declared: nat := frame.bytes[9];
    AddedAllIff(declared, env.outcome);
  }

  lemma {:induction false} AddedAllIff(n: nat, outcome: nat -> Xadd)
    ensures |AddedBelow(n, outcome)| <= n
    ensures |AddedBelow(n, outcome)| == n <==> forall k: nat :: k < n ==> outcome(k).Added?
  {
    if n > 0 {
      AddedAllIff(n - 1, outcome);
      assert AddedBelow(n, outcome) == AddedBelow(n - 1, outcome) + if outcome(n - 1).Added? then {n - 1} else {};
    }
  }

  /** The journal of a run of frames; a session that has ended handles no more of them. */
  function HandleAll(lib: Lib, target: Target, config: SanityConfig, frames: seq<Frame>, envs: seq<Env>): seq<Event>
    requires |envs| == |frames|
  {
    if frames == [] then []
    else
      var h := Handle(lib, target, config, frames[0], envs[0]);
      h.kept + AckEvent(h.ack) +
      if h.streaming then HandleAll(lib, target, config, frames[1..], envs[1..]) else []
  }

  /** An ACK of `n` is justified by what was kept before it: at least `n` of the frame's records, each on
      account of its own append, or the whole frame. */
  ghost predicate Justified(
      lib: Lib, frame: Frame, target: Target, config: SanityConfig, now: int, kept: seq<Event>, n: nat) {
    match ParseFrame(lib, frame)
    case Parsed(AvlPacket(_, records)) =>
      n <= |kept| && multiset(kept) <= multiset(Commands(target, records, config, now))
    case Undecodable(declared) => n == declared && Parked(target.imei, frame.bytes) in kept
    case _ => n == 0
  }

  lemma {:induction false} EffectsAreCommands(commands: seq<Event>, outcome: nat -> Xadd)
    ensures Confirmed(commands, outcome) <= |Effects(commands, outcome)|
    ensures multiset(Effects(commands, outcome)) <= multiset(commands)
  {
    if commands != [] {
      var n := |commands| - 1;
      EffectsAreCommands(commands[..n], outcome);
      assert commands == commands[..n] + [commands[n]];
    }
  }

  /** Every record has its own command, and no command is an ACK. */
  lemma CommandsKeepRecords(target: Target, records: seq<AvlRecord>, config: SanityConfig, now: int)
    ensures var commands := Commands(target, records, config, now);
      && |commands| == |records|
      && (forall r :: r in records ==> Kept(commands, target, r))
      && forall e :: e in commands ==> !e.Acked?
  {
    hide SanityFailure;
    SelectedMembers(target, records, config, now, false);
    SelectedMembers(target, records, config, now, true);
    forall r | r in records ensures Kept(Commands(target, records, config, now), target, r) {
      assert EventOf(target, r, config, now) in Commands(target, records, config, now);
    }
  }

  /** As many effects as records leave none of the records out. */
  lemma AllKept(target: Target, records: seq<AvlRecord>, config: SanityConfig, now: int, kept: seq<Event>)
    requires |records| <= |kept| && multiset(kept) <= multiset(Commands(target, records, config, now))
    ensures forall r :: r in records ==> Kept(kept, target, r)
  {
    CommandsKeepRecords(target, records, config, now);
    var commands := Commands(target, records, config, now);
    assert |multiset(kept)| == |kept| && |multiset(commands)| == |commands|;
    WholeMultiset(multiset(kept), multiset(commands));
    assert forall e :: e in commands ==> e in multiset(commands);
    hide Commands;
    forall r | r in records ensures Kept(kept, target, r) {
      var e :| e in commands &&
        ((e.Streamed? && e.entry.target == target && e.entry.rec == r) || (e.Diverted? && e.imei == target.imei && e.rec == r));
      assert e in kept;
    }
  }

  lemma WholeMultiset(a: multiset<Event>, b: multiset<Event>)
    requires a <= b && |b| <= |a|
    ensures a == b
  {
    assert b == a + (b - a);
  }

  lemma BatchKept(target: Target, records: seq<AvlRecord>, config: SanityConfig, now: int, outcome: nat -> Xadd)
    ensures var commands := Commands(target, records, config, now);
      && Confirmed(commands, outcome) <= |records|
      && (Confirmed(commands, outcome) == |records| ==>
            forall r :: r in records ==> Kept(Effects(commands, outcome), target, r))
  {
    var commands := Commands(target, records, config, now);
    CommandsKeepRecords(target, records, config, now);
    AllConfirmed(commands, outcome);
  }

  lemma HandlingIsJustified(lib: Lib, target: Target, config: SanityConfig, frame: Frame, env: Env)
    ensures var h := Handle(lib, target, config, frame, env);
      && (h.ack.Some? ==> Justified(lib, frame, target, config, env.now, h.kept, h.ack.value))
      && forall e :: e in h.kept ==> !e.Acked?
  {
    hide ParseFrame, Commands, Kept;
    match ParseFrame(lib, frame) {
      case Parsed(AvlPacket(_, records)) =>
        var commands := Commands(target, records, config, env.now);
        CommandsKeepRecords(target, records, config, env.now);
        EffectsAreCommands(commands, env.outcome);
        AllConfirmed(commands, env.outcome);
      case _ =>
    }
  }

  /** The ACK at `i` is the answer to frame `f`: before it stand the events of the frames before `f` and then
      what was kept of `f` itself, and that justifies the number acknowledged. */
  ghost predicate Answers(
      lib: Lib, target: Target, config: SanityConfig, frames: seq<Frame>, envs: seq<Env>, journal: seq<Event>, i: nat, f: nat)
    requires |envs| == |frames| && i < |journal| && journal[i].Acked? && f < |frames|
  {
    var h := Handle(lib, target, config, frames[f], envs[f]);
    && journal[..i] == HandleAll(lib, target, config, frames[..f], envs[..f]) + h.kept
    && h.ack == Some(journal[i].n)
    && Justified(lib, frames[f], target, config, envs[f].now, h.kept, journal[i].n)
  }

  /** Persist, then acknowledge: wherever a session breaks off, every ACK it has sent answers one of its frames,
      and what it claims of that frame had been kept. */
  lemma {:induction false} EveryAckIsJustified(
      lib: Lib, target: Target, config: SanityConfig, frames: seq<Frame>, envs: seq<Env>, i: nat) returns (f: nat)
    requires |envs| == |frames|
    requires var journal := HandleAll(lib, target, config, frames, envs); i < |journal| && journal[i].Acked?
    ensures f < |frames| && Answers(lib, target, config, frames, envs, HandleAll(lib, target, config, frames, envs), i, f)
    decreases |frames|
  {
    hide Handle, Justified, Answers;
    var h := Handle(lib, target, config, frames[0], envs[0]);
    var first := h.kept + AckEvent(h.ack);
    if i < |first| {
      f := 0;
      FirstAnswer(lib, target, config, frames, envs, i);
    } else {
      var m := i - |first|;
      assert HandleAll(lib, target, config, frames, envs)[i] == HandleAll(lib, target, config, frames[1..], envs[1..])[m];
      var g := EveryAckIsJustified(lib, target, config, frames[1..], envs[1..], m);
      f := g + 1;
      LaterAnswer(lib, target, config, frames, envs, m, g);
    }
  }

  /** An ACK among the events of the first frame is that frame's. */
  lemma FirstAnswer(lib: Lib, target: Target, config: SanityConfig, frames: seq<Frame>, envs: seq<Env>, i: nat)
    requires |envs| == |frames| && frames != []
    requires var journal := HandleAll(lib, target, config, frames, envs); i < |journal| && journal[i].Acked?
    requires var h := Handle(lib, target, config, frames[0], envs[0]); i < |h.kept + AckEvent(h.ack)|
    ensures Answers(lib, target, config, frames, envs, HandleAll(lib, target, config, frames, envs), i, 0)
  {
    hide Handle, Justified;
    var journal := HandleAll(lib, target, config, frames, envs);
    var h := Handle(lib, target, config, frames[0], envs[0]);
    HandlingIsJustified(lib, target, config, frames[0], envs[0]);
    assert journal[i] == (h.kept + AckEvent(h.ack))[i];
    assert forall k :: 0 <= k < |h.kept| ==> h.kept[k] in h.kept;
    assert i == |h.kept| && journal[..i] == [] + h.kept;
    assert frames[..0] == [];
  }

  /** What answers a frame of the rest answers it in the whole. */
  lemma LaterAnswer(
      lib: Lib, target: Target, config: SanityConfig, frames: seq<Frame>, envs: seq<Env>, m: nat, g: nat)
    requires |envs| == |frames| && frames != [] && g < |frames[1..]|
    requires Handle(lib, target, config, frames[0], envs[0]).streaming
    requires var rest := HandleAll(lib, target, config, frames[1..], envs[1..]);
      && m < |rest| && rest[m].Acked? && Answers(lib, target, config, frames[1..], envs[1..], rest, m, g)
    ensures var h := Handle(lib, target, config, frames[0], envs[0]);
      var journal, i := HandleAll(lib, target, config, frames, envs), |h.kept + AckEvent(h.ack)| + m;
      i < |journal| && journal[i].Acked? && Answers(lib, target, config, frames, envs, journal, i, g + 1)
  {
    hide Handle, Justified, HandleAll, AckEvent;
    var h := Handle(lib, target, config, frames[0], envs[0]);
    var first, rest := h.kept + AckEvent(h.ack), HandleAll(lib, target, config, frames[1..], envs[1..]);
    var kept := Handle(lib, target, config, frames[1..][g], envs[1..][g]).kept;
    var before := HandleAll(lib, target, config, frames[1..][..g], envs[1..][..g]);
    FirstFrame(lib, target, config, frames, envs);
    FirstFrame(lib, target, config, frames[..g + 1], envs[..g + 1]);
    assert frames[..g + 1][1..] == frames[1..][..g] && envs[..g + 1][1..] == envs[1..][..g];
    Shifted(first, rest, m, before, kept);
  }

  lemma FirstFrame(lib: Lib, target: Target, config: SanityConfig, frames: seq<Frame>, envs: seq<Env>)
    requires |envs| == |frames| && frames != [] && Handle(lib, target, config, frames[0], envs[0]).streaming
    ensures var h := Handle(lib, target, config, frames[0], envs[0]);
      HandleAll(lib, target, config, frames, envs) ==
      (h.kept + AckEvent(h.ack)) + HandleAll(lib, target, config, frames[1..], envs[1..])
  {
    hide Handle;
  }

  lemma Shifted(first: seq<Event>, rest: seq<Event>, m: nat, before: seq<Event>, kept: seq<Event>)
    requires m < |rest| && rest[..m] == before + kept
    ensures (first + rest)[|first| + m] == rest[m] && (first + rest)[..|first| + m] == (first + before) + kept
  {
    assert (first + rest)[..|first| + m] == first + rest[..m];
  }

  /** And the other way round: each frame that a session comes to is answered, with exactly the right number. */
  lemma {:induction false} EveryFrameIsAnswered(
      lib: Lib, target: Target, config: SanityConfig, frames: seq<Frame>, envs: seq<Env>, f: nat, n: nat) returns (i: nat)
    requires |envs| == |frames| && f < |frames|
    requires forall g :: 0 <= g < f ==> !EndsSession(lib, target, frames[g], envs[g])
    requires RightAnswer(lib, target, frames[f], envs[f], Some(n))
    ensures var journal := HandleAll(lib, target, config, frames, envs);
      i < |journal| && journal[i] == Acked(n) && Answers(lib, target, config, frames, envs, journal, i, f)
    decreases |frames|
  {
    hide Handle, Justified, Answers, RightAnswer, EndsSession;
    HandlingIsRight(lib, target, config, frames[0], envs[0]);
    var h := Handle(lib, target, config, frames[0], envs[0]);
    var first := h.kept + AckEvent(h.ack);
    if f == 0 {
      OneRightAnswer(lib, target, frames[0], envs[0], h.ack, Some(n));
      i := |h.kept|;
      FirstAnswer(lib, target, config, frames, envs, i);
    } else {
      assert frames[0] == frames[..f][0];
      var m := EveryFrameIsAnswered(lib, target, config, frames[1..], envs[1..], f - 1, n);
      i := |first| + m;
      LaterAnswer(lib, target, config, frames, envs, m, f - 1);
    }
  }

  lemma OneRightAnswer(lib: Lib, target: Target, frame: Frame, env: Env, a: Option<nat>, b: Option<nat>)
    requires RightAnswer(lib, target, frame, env, a) && RightAnswer(lib, target, frame, env, b)
    ensures a == b
  {
    hide ParseFrame;
  }

  // ----- what an ACK tells the device -----

  /** A parsed packet has exactly as many records as the frame declares. */
  lemma ParsedCountIsDeclared(lib: Lib, frame: Frame)
    requires frame.kind == Avl && ParseFrame(lib, frame).Parsed? && ParseFrame(lib, frame).packet.AvlPacket?
    ensures |frame.bytes| > 9 && |ParseFrame(lib, frame).packet.records| == frame.bytes[9]
  {
    hide ParseFrame;
    ParsedRecordsReadTheirOwnBytes(lib, frame);
  }

  /** A justified ACK of the count a frame declares leaves nothing of it behind: every record is on the shard
      stream or in rejects already, or the whole frame is parked. */
  lemma FullAckMeansKept(lib: Lib, frame: Frame, target: Target, config: SanityConfig, now: int, kept: seq<Event>, n: nat)
    requires frame.kind == Avl && Justified(lib, frame, target, config, now, kept, n)
    requires |frame.bytes| > 9 && 0 < n == frame.bytes[9]
    ensures FrameKept(lib, frame, target, kept)
  {
    if ParseFrame(lib, frame).Parsed? && ParseFrame(lib, frame).packet.AvlPacket? {
      ParsedCountIsDeclared(lib, frame);
      hide ParseFrame;
      AllKept(target, ParseFrame(lib, frame).packet.records, config, now, kept);
    }
  }

  /** The frame is parked, or it is an AVL packet and each of its records is accounted for. */
  ghost predicate FrameKept(lib: Lib, frame: Frame, target: Target, journal: seq<Event>) {
    || Parked(target.imei, frame.bytes) in journal
    || (ParseFrame(lib, frame).Parsed? && ParseFrame(lib, frame).packet.AvlPacket?
        && forall r :: r in ParseFrame(lib, frame).packet.records ==> Kept(journal, target, r))
  }

  /** A device drops a packet when the ACK that answers it equals the count it declared. Whenever a session
      sends such an ACK, everything in that very packet is already kept. */
  lemma DroppedPacketIsKept(
      lib: Lib, target: Target, config: SanityConfig, frames: seq<Frame>, envs: seq<Env>, i: nat) returns (f: nat)
    requires |envs| == |frames|
    requires var journal := HandleAll(lib, target, config, frames, envs); i < |journal| && journal[i].Acked?
    ensures f < |frames|
    ensures var journal := HandleAll(lib, target, config, frames, envs);
      && Answers(lib, target, config, frames, envs, journal, i, f)
      && (frames[f].kind == Avl && |frames[f].bytes| > 9 && 0 < journal[i].n == frames[f].bytes[9] ==>
            FrameKept(lib, frames[f], target, journal[..i]))
  {
    var journal := HandleAll(lib, target, config, frames, envs);
    f := EveryAckIsJustified(lib, target, config, frames, envs, i);
    hide HandleAll, ParseFrame;
    if frames[f].kind == Avl && |frames[f].bytes| > 9 && 0 < journal[i].n == frames[f].bytes[9] {
      var kept := Handle(lib, target, config, frames[f], envs[f]).kept;
      FullAckMeansKept(lib, frames[f], target, config, envs[f].now, kept, journal[i].n);
      KeptStays(lib, frames[f], target, kept, HandleAll(lib, target, config, frames[..f], envs[..f]));
    }
  }

  lemma KeptStays(lib: Lib, frame: Frame, target: Target, kept: seq<Event>, before: seq<Event>)
    requires FrameKept(lib, frame, target, kept)
    ensures FrameKept(lib, frame, target, before + kept)
  {
    hide ParseFrame;
    if !(Parked(target.imei, frame.bytes) in kept) {
      forall r | r in ParseFrame(lib, frame).packet.records ensures Kept(before + kept, target, r) {
        assert Kept(kept, target, r);
      }
    }
  }

  // ----- resends, splits and replays -----

  /** One delivery of some records at one time; `landed` are those whose append took effect. */
  datatype Delivery = Delivery(records: set<AvlRecord>, now: int, landed: set<AvlRecord>)

  /** The row key of a record: the device, its fix time and the hash of its bytes. */
  function RowKey(target: Target, hash: seq<byte> -> int, rec: AvlRecord): Positions.Key {
    Positions.Key(target.deviceId, rec.tsMs, hash(rec.raw))
  }

  function SaneKeys(target: Target, hash: seq<byte> -> int, config: SanityConfig,
      records: set<AvlRecord>, now: int): set<Positions.Key> {
    set r | r in records && Sane(r, config, now) :: RowKey(target, hash, r)
  }

  /** The keys among the appends of a batch. */
  function StreamedKeys(hash: seq<byte> -> int, kept: seq<Event>): set<Positions.Key> {
    set e | e in kept && e.Streamed? :: RowKey(e.entry.target, hash, e.entry.rec)
  }

  /** One handled batch is one delivery: its keys are those of the sane records whose append took effect. */
  lemma BatchIsDelivery(
      target: Target, hash: seq<byte> -> int, config: SanityConfig, records: seq<AvlRecord>, now: int, outcome: nat -> Xadd)
    ensures var kept := Effects(Commands(target, records, config, now), outcome);
      var landed := set r | r in records && EventOf(target, r, config, now) in kept;
      StreamedKeys(hash, kept) == SaneKeys(target, hash, config, landed, now)
  {
    hide RowKey;
    var commands := Commands(target, records, config, now);
    var kept := Effects(commands, outcome);
    var landed := set r | r in records && EventOf(target, r, config, now) in kept;
    SelectedMembers(target, records, config, now, false);
    SelectedMembers(target, records, config, now, true);
    AllConfirmed(commands, outcome);
    forall k | k in StreamedKeys(hash, kept) ensures k in SaneKeys(target, hash, config, landed, now) {
      var e :| e in kept && e.Streamed? && k == RowKey(e.entry.target, hash, e.entry.rec);
      assert e in commands;
      assert e.entry.rec in landed;
    }
    forall k | k in SaneKeys(target, hash, config, landed, now) ensures k in StreamedKeys(hash, kept) {
      var r :| r in landed && Sane(r, config, now) && k == RowKey(target, hash, r);
      assert EventOf(target, r, config, now).Streamed?;
    }
  }

  /** The keys that a history of deliveries puts on the shard stream. */
  function DeliveredKeys(target: Target, hash: seq<byte> -> int, config: SanityConfig, ds: seq<Delivery>): set<Positions.Key> {
    if ds == [] then {}
    else
      var d := ds[|ds| - 1];
      DeliveredKeys(target, hash, config, ds[..|ds| - 1]) + SaneKeys(target, hash, config, d.records * d.landed, d.now)
  }

  /** Time only turns insane records sane. */
  lemma SanityGrows(rec: AvlRecord, config: SanityConfig, t0: int, t1: int)
    requires t0 <= t1 && Sane(rec, config, t0)
    ensures Sane(rec, config, t1)
  {
  }

  /** The record is ahead of what `t0` tolerates, not of what `t1` does, and nothing else is wrong with it. */
  predicate PassesOnlyLater(rec: AvlRecord, config: SanityConfig, t0: int, t1: int) {
    && t0 + config.maxFutureMs < rec.tsMs <= t1 + config.maxFutureMs
    && rec.tsMs >= config.minTsMs && Abs(rec.lat) <= 90 * DEGREE && Abs(rec.lon) <= 180 * DEGREE
  }

  /** The first delivery's verdict and a later one's make the same rows exactly when no record was ahead of the
      first delivery's window and within the later one's. */
  lemma VerdictsAgreeIff(
      target: Target, hash: seq<byte> -> int, config: SanityConfig, records: set<AvlRecord>, t0: int, t1: int)
    requires t0 <= t1
    ensures SaneKeys(target, hash, config, records, t0) == SaneKeys(target, hash, config, records, t1) <==>
            forall r :: r in records ==> !PassesOnlyLater(r, config, t0, t1)
  {
    var first, later := SaneKeys(target, hash, config, records, t0), SaneKeys(target, hash, config, records, t1);
    if r :| r in records && PassesOnlyLater(r, config, t0, t1) {
      // the key holds the fix time, so no record sane at t0 has it
      assert RowKey(target, hash, r) in later && RowKey(target, hash, r) !in first;
    } else {
      assert forall r :: r in records ==> Sane(r, config, t0) == Sane(r, config, t1);
    }
  }

  /** Such a record: diverted when it first arrives, streamed when it is resent a millisecond later. */
  lemma DivertedThenStreamed()
    ensures exists rec, config, t0: int, t1: int :: t0 <= t1 && !Sane(rec, config, t0) && Sane(rec, config, t1)
  {
    var rec := AvlRecord(1, 0, 0, 0, 0, 0, 0, 0, 0, None, map[], []);
    assert !Sane(rec, SanityConfig(0, 0), 0) && Sane(rec, SanityConfig(0, 0), 1);
  }

  /** The record took effect in some delivery that judged it sane. */
  ghost predicate LandedSane(config: SanityConfig, ds: seq<Delivery>, r: AvlRecord) {
    exists d :: d in ds && r in d.records && r in d.landed && Sane(r, config, d.now)
  }

  lemma LandedStep(config: SanityConfig, ds: seq<Delivery>, r: AvlRecord)
    requires ds != []
    ensures var d := ds[|ds| - 1];
      LandedSane(config, ds, r) <==>
      LandedSane(config, ds[..|ds| - 1], r) || (r in d.records * d.landed && Sane(r, config, d.now))
  {
    hide SanityFailure;
    assert ds == ds[..|ds| - 1] + [ds[|ds| - 1]];
  }

  lemma {:induction false} DeliveredMembers(target: Target, hash: seq<byte> -> int, config: SanityConfig, ds: seq<Delivery>)
    ensures forall k :: k in DeliveredKeys(target, hash, config, ds) <==>
              exists r :: LandedSane(config, ds, r) && k == RowKey(target, hash, r)
  {
    hide SanityFailure, RowKey;
    if ds != [] {
      DeliveredMembers(target, hash, config, ds[..|ds| - 1]);
      forall r {
        LandedStep(config, ds, r);
      }
      hide LandedSane;
    }
  }

  /** The deliveries together are a delivery of `records`: nothing else is sent, nothing later than `now`, and
      each record landed at least once at a time that judged it as `now` does. */
  ghost predicate Covers(config: SanityConfig, ds: seq<Delivery>, records: set<AvlRecord>, now: int) {
    && (forall d :: d in ds ==> d.records <= records && d.now <= now)
    && (forall r :: r in records && Sane(r, config, now) ==> LandedSane(config, ds, r))
  }

  /** Whole-packet resends, splits, replays and partial failures put exactly the keys of one complete
      delivery on the stream. */
  lemma ResendsChangeNothing(
      target: Target, hash: seq<byte> -> int, config: SanityConfig, ds: seq<Delivery>, records: set<AvlRecord>, now: int)
    requires Covers(config, ds, records, now)
    ensures DeliveredKeys(target, hash, config, ds) == SaneKeys(target, hash, config, records, now)
  {
    DeliveredMembers(target, hash, config, ds);
    forall k | k in DeliveredKeys(target, hash, config, ds) ensures k in SaneKeys(target, hash, config, records, now) {
      var r :| LandedSane(config, ds, r) && k == RowKey(target, hash, r);
      var d :| d in ds && r in d.records && r in d.landed && Sane(r, config, d.now);
      SanityGrows(r, config, d.now, now);
    }
    hide SanityFailure, RowKey;
    forall k | k in SaneKeys(target, hash, config, records, now) ensures k in DeliveredKeys(target, hash, config, ds) {
      var r :| r in records && Sane(r, config, now) && k == RowKey(target, hash, r);
      assert LandedSane(config, ds, r);
    }
  }

  /** A whole resend that lands completely makes the deliveries complete, whatever went wrong before. */
  lemma LastWholeResendCovers(config: SanityConfig, ds: seq<Delivery>, records: set<AvlRecord>)
    requires ds != [] && ds[|ds| - 1].records == records == ds[|ds| - 1].landed
    requires forall d :: d in ds ==> d.records <= records && d.now <= ds[|ds| - 1].now
    ensures Covers(config, ds, records, ds[|ds| - 1].now)
  {
    hide SanityFailure;
    var last := ds[|ds| - 1];
    assert last in ds;
    assert forall r :: r in records && Sane(r, config, last.now) ==> LandedSane(config, ds, r);
  }

  function DeviceKeys(keys: set<Positions.Key>, device: int): set<Positions.Key> {
    set k | k in keys && k.device == device
  }

  ghost predicate IsDevices(p: Pipeline.Payload, device: int) {
    p.key.Some? && p.key.value.device == device
  }

  /** The device's entries have been delivered, are no longer pending, and none of them was evicted; what other
      devices of the shard have in the stream is left open. */
  ghost predicate WorkedOff(s: Pipeline.State, device: int) {
    forall id :: id in s.log && IsDevices(s.log[id], device) ==>
      id in s.delivered && id !in s.pel && !Pipeline.Evicted(s, id)
  }

  /**
   * End to end, for one device of a shard that any number of devices share. When its entries have been worked
   * off, the positions table holds rows of one complete delivery of its sane records only, and each of them
   * unless the row was quarantined; with none quarantined it holds them exactly. It does not matter how often
   * and in whatever pieces the records were sent, nor how often workers crashed, retried and re-read.
   */
  lemma ExactlyOnceRows(
      target: Target, hash: seq<byte> -> int, config: SanityConfig, ds: seq<Delivery>, records: set<AvlRecord>, now: int,
      run: seq<Pipeline.State>, actions: seq<Pipeline.Action>, k: nat)
    requires Covers(config, ds, records, now)
    requires Pipeline.IsRun(run, actions) && k < |run| && WorkedOff(run[k], target.deviceId)
    requires var log := run[k].log;
      DeviceKeys(Pipeline.KeysOf(log, log.Keys), target.deviceId) == DeliveredKeys(target, hash, config, ds)
    ensures var s, rows := run[k], SaneKeys(target, hash, config, records, now);
      var stored := DeviceKeys(s.table, target.deviceId);
      && stored <= rows
      && (forall key :: key in rows - stored ==>
            exists id :: id in s.log && s.log[id].key == Some(key) && Pipeline.Quarantined(s, id))
      && ((forall id :: id in s.dead ==> !IsDevices(s.dead[id], target.deviceId)) ==> stored == rows)
  {
    ResendsChangeNothing(target, hash, config, ds, records, now);
    var s, rows := run[k], SaneKeys(target, hash, config, records, now);
    Pipeline.RowsStem(run, actions, k);
    hide DeliveredKeys, SaneKeys, Covers;
    forall key | key in rows && key !in s.table
      ensures exists id :: id in s.log && s.log[id].key == Some(key) && Pipeline.Quarantined(s, id)
    {
      var id :| id in s.log.Keys && id in s.log && s.log[id].key == Some(key);
      assert IsDevices(s.log[id], target.deviceId);
      Pipeline.PendingEntriesLeaveAccountedFor(run, actions, k, id);
    }
  }
}
