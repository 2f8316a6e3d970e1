/**
 * One pass of a shard consumer's loop: while it may have entries of its own pending it re-reads and
 * processes those, COUNT at a time, and turns to autoclaim and to new entries only when a re-read
 * brings nothing back. Pending entries that the stream no longer holds are acknowledged on sight.
 */
module Drain {
  type Id = nat

  datatype Fence = Held | LostLease | Unknown

  /** How the autoclaim or the read of new entries ends, with the processing of what it brought: cleanly, with an
      exception, or with the lease found lost. `left` are the entries then left pending under this consumer's name. */
  datatype Leg = Clean | Thrown(left: seq<Id>) | Fenced(left: seq<Id>)

  /** What goes wrong in a pass. `stuck` are the entries a failing process() has not acknowledged. */
  datatype Faults = Faults(
    readFails: bool, ackFails: bool, ackLands: bool, fence: Fence, processFails: bool, stuck: set<Id>,
    autoclaim: Leg, newRead: Leg)

  const NoFaults := Faults(false, false, true, Held, false, {}, Clean, Clean)

  /** The consumer: its own pending list in id order, the flags of its loop, and how many reads of new
      entries it has issued. */
  datatype Loop = Loop(own: seq<Id>, ownPending: bool, running: bool, newReads: nat)

  function Without(ids: seq<Id>, drop: set<Id>): (r: seq<Id>)
    ensures |r| <= |ids|
  {
    if ids == [] then []
    else if ids[0] in drop then Without(ids[1..], drop)
    else [ids[0]] + Without(ids[1..], drop)
  }

  /** The reply to a re-read: the first COUNT pending ids. */
  function Reply(own: seq<Id>, count: nat): seq<Id> {
    if |own| <= count then own else own[..count]
  }

  function Tombstones(ids: seq<Id>, stream: set<Id>): set<Id> {
    set id | id in ids && id !in stream
  }

  function Entries(ids: seq<Id>, stream: set<Id>): set<Id> {
    set id | id in ids && id in stream
  }

  function Ended(l: Loop, leg: Leg): Loop {
    match leg
    case Clean => l
    case Thrown(left) => l.(own := l.own + left, ownPending := true)
    case Fenced(left) => l.(own := l.own + left, running := false)
  }

  /** Autoclaim, then a read of new entries. */
  function Rest(l: Loop, f: Faults): Loop {
    if !f.autoclaim.Clean? then Ended(l, f.autoclaim) else Ended(l.(newReads := l.newReads + 1), f.newRead)
  }

  function Pass(l: Loop, stream: set<Id>, count: nat, f: Faults): Loop {
    if !l.ownPending then Rest(l, f)
    else if f.readFails then l
    else
      var reply := Reply(l.own, count);
      var gone, got := Tombstones(reply, stream), Entries(reply, stream);
      if gone != {} && f.ackFails then l.(own := if f.ackLands then Without(l.own, gone) else l.own)
      else
        var l' := l.(own := Without(l.own, gone));
        if got == {} then Rest(l'.(ownPending := false), f)
        else
          match f.fence
          case LostLease => l'.(running := false)
          case Unknown => l'
          case Held => l'.(own := Without(l'.own, if f.processFails then got - f.stuck else got))
  }

  class ShardLoop {
    var own: seq<Id>
    var ownPending: bool
    var running: bool
    var newReads: nat
    const count: nat

    constructor (count: nat := 200)
      ensures own == [] && ownPending && running && newReads == 0 && this.count == count
    {
      own, ownPending, running, newReads := [], true, true, 0;
      this.count := count;
    }

    function State(): Loop
      reads this
    {
      Loop(own, ownPending, running, newReads)
    }

    /** read('0'): tombstones are acknowledged here; `threw` if the read or that ACK failed. */
    method ReadOwn(stream: set<Id>, f: Faults) returns (threw: bool, got: set<Id>)
      modifies this`own
      ensures threw <==> f.readFails || (Tombstones(Reply(old(own), count), stream) != {} && f.ackFails)
      ensures !threw ==> got == Entries(Reply(old(own), count), stream)
      ensures var gone := Tombstones(Reply(old(own), count), stream);
        own == if f.readFails || (gone != {} && f.ackFails && !f.ackLands) then old(own) else Without(old(own), gone)
    {
      got := {};
      if f.readFails { return true, got; }
      var rows := Reply(own, count);
      var gone: set<Id> := {};
      for i := 0 to |rows|
        invariant gone == Tombstones(rows[..i], stream) && got == Entries(rows[..i], stream)
      {
        assert rows[..i + 1] == rows[..i] + [rows[i]];
        if rows[i] in stream { got := got + {rows[i]}; } else { gone := gone + {rows[i]}; }
      }
      assert rows[..|rows|] == rows;
      threw := false;
      if gone != {} {
        if !f.ackFails || f.ackLands { own := Without(own, gone); }
        threw := f.ackFails;
      } else {
        NothingWithout(own);
      }
    }

    /** One turn of the loop. */
    method Turn(stream: set<Id>, f: Faults)
      modifies this
      ensures State() == Pass(old(State()), stream, count, f)
      ensures running <==> old(running) && !FoundLost(old(State()), stream, f, count)
    {
      StopsIffFoundLost(State(), stream, f, count);
      if ownPending {
        var threw, mine := ReadOwn(stream, f);
        if threw { return; }
        if mine == {} {
          ownPending := false;
        } else {
          if f.fence.LostLease? { running := false; return; }
          if f.fence.Unknown? { return; }
          own := Without(own, if f.processFails then mine - f.stuck else mine);
          return;
        }
      }
      match f.autoclaim {
        case Thrown(left) => own, ownPending := own + left, true; return;
        case Fenced(left) => own, running := own + left, false; return;
        case Clean =>
      }
      newReads := newReads + 1;
      match f.newRead {
        case Thrown(left) => own, ownPending := own + left, true;
        case Fenced(left) => own, running := own + left, false;
        case Clean =>
      }
    }

    /** The own-pending phase with nothing going wrong: it ends, within one turn per pending entry and one more. */
    method DrainOwn(stream: set<Id>) returns (turns: nat)
      requires count > 0 && ownPending
      modifies this
      ensures !ownPending && newReads == old(newReads) + 1 && running == old(running)
      ensures turns <= |old(own)| + 1
      ensures own == LeftBehind(old(own), stream, count)
    {
      turns := 0;
      while ownPending
        invariant running == old(running)
        invariant ownPending ==> turns + |own| <= |old(own)| && newReads == old(newReads)
        invariant ownPending ==> LeftBehind(own, stream, count) == LeftBehind(old(own), stream, count)
        invariant !ownPending ==> turns <= |old(own)| + 1 && newReads == old(newReads) + 1
        invariant !ownPending ==> own == LeftBehind(old(own), stream, count)
        decreases ownPending, |own|
      {
        LiveTurnShrinks(State(), stream, count);
        Turn(stream, NoFaults);
        turns := turns + 1;
      }
    }
  }

  lemma {:induction false} NothingWithout(ids: seq<Id>)
    ensures Without(ids, {}) == ids
  {
    if ids != [] {
      NothingWithout(ids[1..]);
    }
  }

  // ----- the own-pending phase -----

  lemma {:induction false} WithoutMembers(ids: seq<Id>, drop: set<Id>)
    ensures forall id :: id in Without(ids, drop) <==> id in ids && id !in drop
    ensures |Without(ids, drop)| == |ids| ==> forall id :: id in ids ==> id !in drop
  {
    if ids != [] {
      WithoutMembers(ids[1..], drop);
      assert forall id :: id in ids <==> id == ids[0] || id in ids[1..];
    }
  }

  /** The entries left pending when the phase ends, if nothing goes wrong. */
  function LeftBehind(own: seq<Id>, stream: set<Id>, count: nat): seq<Id>
    requires count > 0
    decreases |own|
  {
    var reply := Reply(own, count);
    if Entries(reply, stream) == {} then Without(own, Tombstones(reply, stream))
    else
      var left := Without(Without(own, Tombstones(reply, stream)), Entries(reply, stream));
      ReplyShrinks(own, stream, count);
      LeftBehind(left, stream, count)
  }

  lemma ReplyShrinks(own: seq<Id>, stream: set<Id>, count: nat)
    requires count > 0
    ensures var reply := Reply(own, count);
      Entries(reply, stream) != {} ==>
      |Without(Without(own, Tombstones(reply, stream)), Entries(reply, stream))| < |own|
  {
    var reply := Reply(own, count);
    if Entries(reply, stream) != {} {
      var id :| id in Entries(reply, stream);
      var less := Without(own, Tombstones(reply, stream));
      WithoutMembers(own, Tombstones(reply, stream));
      WithoutMembers(less, Entries(reply, stream));
      assert id in own;
      assert id in less;
    }
  }

  /** An error-free turn of the phase either ends it or strictly shrinks the pending list and reads nothing new. */
  lemma LiveTurnShrinks(l: Loop, stream: set<Id>, count: nat)
    requires l.ownPending && count > 0
    ensures var l' := Pass(l, stream, count, NoFaults);
      && l'.running == l.running
      && (if Entries(Reply(l.own, count), stream) == {}
          then !l'.ownPending && l'.newReads == l.newReads + 1 && l'.own == LeftBehind(l.own, stream, count)
          else l'.ownPending && l'.newReads == l.newReads && |l'.own| < |l.own|
               && LeftBehind(l'.own, stream, count) == LeftBehind(l.own, stream, count))
  {
    ReplyShrinks(l.own, stream, count);
  }

  // ----- runs of passes, with any faults -----

  /** Consecutive passes of a consumer, each on the stream as it is then. Between two passes peers may take
      pending entries over, which only shortens the list. */
  ghost predicate LoopRun(ls: seq<Loop>, streams: seq<set<Id>>, fs: seq<Faults>, count: nat) {
    && |ls| == |streams| + 1 && |fs| == |streams| && count > 0
    && ls[0].ownPending
    && forall k :: 0 <= k < |streams| ==> LoopTurn(ls[k], streams[k], fs[k], count, ls[k + 1])
  }

  ghost predicate LoopTurn(l: Loop, stream: set<Id>, f: Faults, count: nat, l': Loop) {
    var after := Pass(l, stream, count, f);
    l.running && |l'.own| <= |after.own| && l' == after.(own := l'.own)
  }

  /** The re-read of a pass was answered, and brought no live entry back. */
  predicate Drained(l: Loop, stream: set<Id>, f: Faults, count: nat) {
    var reply := Reply(l.own, count);
    && l.ownPending && !f.readFails && !(Tombstones(reply, stream) != {} && f.ackFails) && Entries(reply, stream) == {}
  }

  /** The pass ended with an exception. */
  predicate Failed(l: Loop, stream: set<Id>, f: Faults, count: nat) {
    var reply := Reply(l.own, count);
    if l.ownPending && !Drained(l, stream, f, count) then
      || f.readFails
      || (Tombstones(reply, stream) != {} && f.ackFails)
      || f.fence.Unknown?
      || (f.fence.Held? && f.processFails)
    else f.autoclaim.Thrown? || (f.autoclaim.Clean? && f.newRead.Thrown?)
  }

  /** The re-read of a pass brought live entries back. */
  predicate AtOwnBatch(l: Loop, stream: set<Id>, f: Faults, count: nat) {
    var reply := Reply(l.own, count);
    && l.ownPending && !f.readFails && !(Tombstones(reply, stream) != {} && f.ackFails) && Entries(reply, stream) != {}
  }

  /** The pass came to autoclaim. */
  predicate PastOwn(l: Loop, stream: set<Id>, f: Faults, count: nat) {
    !l.ownPending || Drained(l, stream, f, count)
  }

  /** The fence before a batch the pass came to found the lease lost: its own entries, the autoclaimed ones, or the
      new ones. */
  predicate FoundLost(l: Loop, stream: set<Id>, f: Faults, count: nat) {
    || (AtOwnBatch(l, stream, f, count) && f.fence.LostLease?)
    || (PastOwn(l, stream, f, count) && f.autoclaim.Fenced?)
    || (PastOwn(l, stream, f, count) && f.autoclaim.Clean? && f.newRead.Fenced?)
  }

  function Left(leg: Leg): seq<Id> {
    if leg.Clean? then [] else leg.left
  }

  /** The entry is settled by the pass: a trimmed one whose ACK lands, or one of the own batch that was processed
      behind a fence that held. */
  predicate Settles(l: Loop, stream: set<Id>, f: Faults, count: nat, id: Id) {
    && l.ownPending && !f.readFails && id in Reply(l.own, count)
    && if id in stream then AtOwnBatch(l, stream, f, count) && f.fence.Held? && !(f.processFails && id in f.stuck)
       else !f.ackFails || f.ackLands
  }

  /** Every pass stops the consumer exactly when a fence it came to found the lease lost. */
  lemma StopsIffFoundLost(l: Loop, stream: set<Id>, f: Faults, count: nat)
    ensures Pass(l, stream, count, f).running <==> l.running && !FoundLost(l, stream, f, count)
  {
  }

  /** What else a pass does: new entries are read exactly behind a clean autoclaim, and the consumer goes back to
      its own entries exactly after a failure or a batch of them. */
  lemma PassFlags(l: Loop, stream: set<Id>, f: Faults, count: nat)
    ensures var l' := Pass(l, stream, count, f);
      && l'.newReads == l.newReads + (if PastOwn(l, stream, f, count) && f.autoclaim.Clean? then 1 else 0)
      && (l'.ownPending <==> Failed(l, stream, f, count) || AtOwnBatch(l, stream, f, count))
  {
  }

  /** In every pass an entry leaves the own list exactly when it is settled; nothing joins the list but what an
      interrupted autoclaim or new read leaves behind. */
  lemma LeavesIffSettled(l: Loop, stream: set<Id>, f: Faults, count: nat, id: Id)
    ensures var l' := Pass(l, stream, count, f);
      var taken := if !PastOwn(l, stream, f, count) then [] else if f.autoclaim.Clean? then Left(f.newRead) else Left(f.autoclaim);
      id in l'.own <==> id in taken || (id in l.own && !Settles(l, stream, f, count, id))
  {
    hide Without;
    var reply := Reply(l.own, count);
    var gone, got := Tombstones(reply, stream), Entries(reply, stream);
    WithoutMembers(l.own, gone);
    WithoutMembers(Without(l.own, gone), got);
    WithoutMembers(Without(l.own, gone), got - f.stuck);
    assert forall x :: x in reply ==> x in l.own;
  }

  /** A lost lease settles nothing of the batch it was found before, nor any other live entry, and no read of new
      entries follows it in the pass. */
  lemma LostLeaseTouchesNothing(l: Loop, stream: set<Id>, f: Faults, count: nat)
    requires FoundLost(l, stream, f, count)
    ensures var l' := Pass(l, stream, count, f);
      && !l'.running
      && (forall id :: id in l.own && id in stream ==> id in l'.own)
      && (AtOwnBatch(l, stream, f, count) || f.autoclaim.Fenced? ==> l'.newReads == l.newReads)
      && (!AtOwnBatch(l, stream, f, count) && f.autoclaim.Fenced? ==> forall id :: id in f.autoclaim.left ==> id in l'.own)
      && (!AtOwnBatch(l, stream, f, count) && f.autoclaim.Clean? ==>
            l'.newReads == l.newReads + 1 && forall id :: id in f.newRead.left ==> id in l'.own)
  {
    hide Pass, Settles, Reply;
    StopsIffFoundLost(l, stream, f, count);
    PassFlags(l, stream, f, count);
    var l' := Pass(l, stream, count, f);
    forall id ensures id in l.own && id in stream ==> id in l'.own {
      LeavesIffSettled(l, stream, f, count, id);
      LiveNotSettled(l, stream, f, count, id);
    }
    forall id ensures !AtOwnBatch(l, stream, f, count) && f.autoclaim.Fenced? && id in f.autoclaim.left ==> id in l'.own {
      LeavesIffSettled(l, stream, f, count, id);
    }
    forall id ensures !AtOwnBatch(l, stream, f, count) && f.autoclaim.Clean? && id in f.newRead.left ==> id in l'.own {
      LeavesIffSettled(l, stream, f, count, id);
    }
  }

  lemma LiveNotSettled(l: Loop, stream: set<Id>, f: Faults, count: nat, id: Id)
    requires FoundLost(l, stream, f, count)
    ensures id in stream ==> !Settles(l, stream, f, count, id)
  {
  }

  /** A run of passes ends with the pass that finds the lease lost, and its consumer stops for no other reason. */
  lemma RunEndsWithTheLease(ls: seq<Loop>, streams: seq<set<Id>>, fs: seq<Faults>, count: nat, k: nat)
    requires LoopRun(ls, streams, fs, count) && k < |streams|
    ensures FoundLost(ls[k], streams[k], fs[k], count) <==> !ls[k + 1].running
    ensures FoundLost(ls[k], streams[k], fs[k], count) ==> k + 1 == |streams|
  {
    hide Pass, FoundLost;
    StopsIffFoundLost(ls[k], streams[k], fs[k], count);
    assert LoopTurn(ls[k], streams[k], fs[k], count, ls[k + 1]);
    if k + 1 < |streams| {
      assert LoopTurn(ls[k + 1], streams[k + 1], fs[k + 1], count, ls[k + 2]);
    }
  }

  /** An exception sends the consumer back to its own entries. */
  lemma FailedPassRearms(l: Loop, stream: set<Id>, f: Faults, count: nat)
    requires Failed(l, stream, f, count)
    ensures Pass(l, stream, count, f).ownPending
  {
  }

  /** A pass within the phase: no new read, nothing added, and strictly less if it went through. */
  lemma TurnInPhase(l: Loop, stream: set<Id>, f: Faults, count: nat)
    requires l.ownPending && !Drained(l, stream, f, count) && count > 0
    ensures var l' := Pass(l, stream, count, f);
      && l'.ownPending && l'.newReads == l.newReads && |l'.own| <= |l.own|
      && (!Failed(l, stream, f, count) && f.fence.Held? ==> |l'.own| < |l.own|)
  {
    ReplyShrinks(l.own, stream, count);
  }

  /** From the start of the consumer and from every failing pass on, no new entry is read before a re-read of the
      own pending entries has been answered without a live one. */
  lemma {:induction false} NewReadsFollowADrain(
      ls: seq<Loop>, streams: seq<set<Id>>, fs: seq<Faults>, count: nat, a: nat, b: nat) returns (j: nat)
    requires LoopRun(ls, streams, fs, count) && a < b < |ls|
    requires a == 0 || Failed(ls[a - 1], streams[a - 1], fs[a - 1], count)
    requires ls[b].newReads != ls[a].newReads
    ensures a <= j < b && Drained(ls[j], streams[j], fs[j], count) && ls[j].newReads == ls[a].newReads
  {
    if a > 0 {
      FailedPassRearms(ls[a - 1], streams[a - 1], fs[a - 1], count);
      assert LoopTurn(ls[a - 1], streams[a - 1], fs[a - 1], count, ls[a]);
    }
    j := FirstDrain(ls, streams, fs, count, a, b);
  }

  lemma {:induction false} FirstDrain(
      ls: seq<Loop>, streams: seq<set<Id>>, fs: seq<Faults>, count: nat, a: nat, b: nat) returns (j: nat)
    requires LoopRun(ls, streams, fs, count) && a < b < |ls| && ls[a].ownPending
    requires ls[b].newReads != ls[a].newReads
    ensures a <= j < b && Drained(ls[j], streams[j], fs[j], count) && ls[j].newReads == ls[a].newReads
    decreases b - a
  {
    hide Pass, Drained;
    j := a;
    if !Drained(ls[a], streams[a], fs[a], count) {
      assert LoopTurn(ls[a], streams[a], fs[a], count, ls[a + 1]);
      TurnInPhase(ls[a], streams[a], fs[a], count);
      j := FirstDrain(ls, streams, fs, count, a + 1, b);
    }
  }

  /** The passes of a stretch that went through. */
  function WentThrough(ls: seq<Loop>, streams: seq<set<Id>>, fs: seq<Faults>, count: nat, a: nat, b: nat): nat
    requires |ls| == |streams| + 1 && |fs| == |streams| && a <= b < |ls|
  {
    if a == b then 0
    else
      WentThrough(ls, streams, fs, count, a, b - 1) +
      if !Failed(ls[b - 1], streams[b - 1], fs[b - 1], count) && fs[b - 1].fence.Held? then 1 else 0
  }

  /** Until the re-read comes back without a live entry, the passes that go through are at most as many as the list
      was long, however many fail in between and whatever peers and trimming do. */
  lemma {:induction false} PhaseEnds(
      ls: seq<Loop>, streams: seq<set<Id>>, fs: seq<Faults>, count: nat, a: nat, b: nat)
    requires LoopRun(ls, streams, fs, count) && a <= b < |ls| && ls[a].ownPending
    requires forall j :: a <= j < b ==> !Drained(ls[j], streams[j], fs[j], count)
    ensures ls[b].ownPending && ls[b].newReads == ls[a].newReads
    ensures WentThrough(ls, streams, fs, count, a, b) + |ls[b].own| <= |ls[a].own|
    decreases b
  {
    hide Pass, Drained, Failed;
    if a < b {
      PhaseEnds(ls, streams, fs, count, a, b - 1);
      assert LoopTurn(ls[b - 1], streams[b - 1], fs[b - 1], count, ls[b]);
      TurnInPhase(ls[b - 1], streams[b - 1], fs[b - 1], count);
    }
  }

  // ----- leaving the phase -----

  /** The first COUNT pending entries have all been trimmed, and there are that many. */
  ghost predicate FullCountOfTombstones(own: seq<Id>, stream: set<Id>, count: nat) {
    |own| >= count && forall k :: 0 <= k < count ==> own[k] !in stream
  }

  lemma {:induction false} WithoutPrefix(ids: seq<Id>, k: nat, drop: set<Id>)
    requires k <= |ids| && (forall i :: 0 <= i < k ==> ids[i] in drop) && (forall i :: k <= i < |ids| ==> ids[i] !in drop)
    ensures Without(ids, drop) == ids[k..]
  {
    if ids != [] {
      if k > 0 {
        WithoutPrefix(ids[1..], k - 1, drop);
      } else {
        WithoutPrefix(ids[1..], 0, drop);
      }
    }
  }

  /**
   * What an empty re-read proves. The phase ends on one, and the pending list is then free of live entries
   * exactly unless a full COUNT of trimmed ids led it and a live one came after.
   */
  lemma ExitLeavesLiveIff(l: Loop, stream: set<Id>, count: nat)
    requires l.ownPending && Entries(Reply(l.own, count), stream) == {}
    ensures (exists id :: id in Pass(l, stream, count, NoFaults).own && id in stream) <==>
            FullCountOfTombstones(l.own, stream, count) && exists k :: count <= k < |l.own| && l.own[k] in stream
  {
    var reply := Reply(l.own, count);
    var gone := Tombstones(reply, stream);
    WithoutMembers(l.own, gone);
    assert forall id :: id in reply && id in stream ==> id in Entries(reply, stream);
    forall k | 0 <= k < |reply| ensures l.own[k] !in stream {
      assert reply[k] == l.own[k];
      assert reply[k] in reply;
    }
    if exists id :: id in Pass(l, stream, count, NoFaults).own && id in stream {
      var id :| id in Pass(l, stream, count, NoFaults).own && id in stream;
      var k :| 0 <= k < |l.own| && l.own[k] == id;
      assert count <= k;
    }
    if exists k :: count <= k < |l.own| && l.own[k] in stream {
      var k :| count <= k < |l.own| && l.own[k] in stream;
      assert l.own[k] in Pass(l, stream, count, NoFaults).own;
    }
  }

  /** It does happen: COUNT trimmed entries ahead of a live one end the phase with that one still pending. */
  lemma LiveEntryLeftPending()
    ensures LeftBehind([1, 2, 3], {3}, 2) == [3]
  {
    assert Reply([1, 2, 3], 2) == [1, 2];
    assert Entries([1, 2], {3}) == {} && Tombstones([1, 2], {3}) == {1, 2};
    WithoutPrefix([1, 2, 3], 2, {1, 2});
  }
}
