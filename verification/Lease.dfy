/**
 * Shard leases: a Redis key per shard with a time to live, claimed with SET NX, renewed by a
 * compare-and-extend script, released by a GET followed by a DEL, and consulted by every consumer
 * before it applies a batch.
 */
module Lease {
  import opened Options

  type WorkerId = nat
  type Shard = nat
  type Time = nat

  const SHARD_COUNT := 16

  /** The value and the expiry of a lease key; Redis answers as if it were gone from `expiry` on. */
  datatype Key = Key(holder: WorkerId, expiry: Time)

  function Live(k: Option<Key>, now: Time): Option<Key> {
    if k.Some? && now < k.value.expiry then k else None
  }

  predicate HeldBy(k: Option<Key>, w: WorkerId, now: Time) {
    Live(k, now).Some? && k.value.holder == w
  }

  /** SET key w PX ttl NX */
  function Claimed(k: Option<Key>, w: WorkerId, now: Time, ttl: nat): Option<Key> {
    if Live(k, now).None? then Some(Key(w, now + ttl)) else k
  }

  /** The renewal script. */
  function Renewed(k: Option<Key>, w: WorkerId, now: Time, ttl: nat): Option<Key> {
    if HeldBy(k, w, now) then Some(Key(w, now + ttl)) else k
  }

  /** What a command may do to a key on behalf of `w`: nothing that a live peer's lease would notice. */
  ghost predicate LeavesPeersAlone(k: Option<Key>, k': Option<Key>, w: WorkerId, now: Time) {
    Live(k, now).Some? && k.value.holder != w ==> k' == k
  }

  // ----- the leaser -----

  function KeyOf(keys: map<Shard, Key>, s: Shard): Option<Key> {
    if s in keys then Some(keys[s]) else None
  }

  class Redis {
    var keys: map<Shard, Key>
    var now: Time

    constructor ()
      ensures keys == map[] && now == 0
    {
      keys, now := map[], 0;
    }

    method SetNx(s: Shard, w: WorkerId, ttl: nat) returns (ok: bool)
      modifies this`keys
      ensures ok == Live(KeyOf(old(keys), s), now).None?
      ensures forall x: Shard :: KeyOf(keys, x) ==
                if x == s then Claimed(KeyOf(old(keys), s), w, now, ttl) else KeyOf(old(keys), x)
    {
      ok := Live(KeyOf(keys, s), now).None?;
      if ok { keys := keys[s := Key(w, now + ttl)]; }
    }

    method RenewScript(s: Shard, w: WorkerId, ttl: nat) returns (renewed: bool)
      modifies this`keys
      ensures renewed == HeldBy(KeyOf(old(keys), s), w, now)
      ensures forall x: Shard :: KeyOf(keys, x) ==
                if x == s then Renewed(KeyOf(old(keys), s), w, now, ttl) else KeyOf(old(keys), x)
    {
      renewed := HeldBy(KeyOf(keys, s), w, now);
      if renewed { keys := keys[s := Key(w, now + ttl)]; }
    }

    method Get(s: Shard) returns (holder: Option<WorkerId>)
      ensures holder == if Live(KeyOf(keys, s), now).Some? then Some(keys[s].holder) else None
    {
      holder := if Live(KeyOf(keys, s), now).Some? then Some(keys[s].holder) else None;
    }

    method Del(s: Shard)
      modifies this`keys
      ensures keys == old(keys) - {s}
    {
      keys := keys - {s};
    }
  }

  /** One shard through a tick: the key, whether the leaser owns the shard afterwards. */
  datatype Ticked = Ticked(key: Option<Key>, owned: bool)

  function TickShard(k: Option<Key>, owned: bool, w: WorkerId, now: Time, ttl: nat): Ticked {
    if owned then Ticked(Renewed(k, w, now, ttl), HeldBy(k, w, now))
    else Ticked(Claimed(k, w, now, ttl), Live(k, now).None?)
  }

  class ShardLeaser {
    const redis: Redis
    const workerId: WorkerId
    const ttl: nat
    var owned: set<Shard>

    constructor (redis: Redis, workerId: WorkerId, ttl: nat := 30_000)
      ensures this.redis == redis && this.workerId == workerId && this.ttl == ttl && owned == {}
    {
      this.redis, this.workerId, this.ttl := redis, workerId, ttl;
      owned := {};
    }

    method TryClaim(s: Shard) returns (ok: bool)
      modifies this, redis`keys
      ensures ok == Live(KeyOf(old(redis.keys), s), redis.now).None?
      ensures owned == if ok then old(owned) + {s} else old(owned)
      ensures forall x: Shard :: KeyOf(redis.keys, x) ==
                if x == s then Claimed(KeyOf(old(redis.keys), s), workerId, redis.now, ttl) else KeyOf(old(redis.keys), x)
    {
      ok := redis.SetNx(s, workerId, ttl);
      if ok { owned := owned + {s}; }
    }

    /** One renew-and-reacquire pass, answering which callbacks fired. A shard whose command fails stays owned
        or not as it was; the command itself may have taken effect (`landed`) or not (`refused`). */
    method Tick(landed: set<Shard>, refused: set<Shard>) returns (lost: set<Shard>, gained: set<Shard>)
      requires landed !! refused
      modifies this, redis`keys
      ensures forall s: Shard ::
                var before, after := KeyOf(old(redis.keys), s), KeyOf(redis.keys, s);
                var ticked := TickShard(before, s in old(owned), workerId, redis.now, ttl);
                if s >= SHARD_COUNT || s in refused then after == before && (s in owned <==> s in old(owned))
                else if s in landed then after == ticked.key && (s in owned <==> s in old(owned))
                else Ticked(after, s in owned) == ticked
      ensures forall s: Shard :: s < SHARD_COUNT && s !in refused ==>
                var before, after := KeyOf(old(redis.keys), s), KeyOf(redis.keys, s);
                if s in old(owned) then
                  if HeldBy(before, workerId, redis.now) then s in owned && after == Some(Key(workerId, redis.now + ttl))
                  else after == before && (s in owned <==> s in landed)
                else
                  if Live(before, redis.now).None? then
                    (s in owned <==> s !in landed) && after == Some(Key(workerId, redis.now + ttl))
                  else after == before && s !in owned
      ensures lost == old(owned) - owned && gained == owned - old(owned)
      ensures forall s: Shard :: LeavesPeersAlone(KeyOf(old(redis.keys), s), KeyOf(redis.keys, s), workerId, redis.now)
    {
      lost, gained := {}, {};
      for s := 0 to SHARD_COUNT
        invariant forall x: Shard ::
                    var before, after := KeyOf(old(redis.keys), x), KeyOf(redis.keys, x);
                    var ticked := TickShard(before, x in old(owned), workerId, redis.now, ttl);
                    if x >= s || x in refused then after == before && (x in owned <==> x in old(owned))
                    else if x in landed then after == ticked.key && (x in owned <==> x in old(owned))
                    else Ticked(after, x in owned) == ticked
        invariant forall x: Shard :: x in lost <==> x in old(owned) && x !in owned
        invariant forall x: Shard :: x in gained <==> x !in old(owned) && x in owned
      {
        if s in landed {
          if s in owned {
            var _ := redis.RenewScript(s, workerId, ttl);
          } else {
            var _ := redis.SetNx(s, workerId, ttl);
          }
        } else if s !in refused {
          if s in owned {
            var renewed := redis.RenewScript(s, workerId, ttl);
            if !renewed {
              owned := owned - {s};
              lost := lost + {s};
            }
          } else {
            var ok := TryClaim(s);
            if ok { gained := gained + {s}; }
          }
        }
      }
    }

    /** Releasing one shard, with nothing in between the two commands. */
    method GiveUp(s: Shard)
      modifies this, redis`keys
      ensures owned == old(owned) - {s}
      ensures redis.keys ==
              if HeldBy(KeyOf(old(redis.keys), s), workerId, redis.now) then old(redis.keys) - {s} else old(redis.keys)
      ensures LeavesPeersAlone(KeyOf(old(redis.keys), s), KeyOf(redis.keys, s), workerId, redis.now)
    {
      owned := owned - {s};
      var holder := redis.Get(s);
      if holder == Some(workerId) { redis.Del(s); }
    }

    method ReleaseLeases()
      modifies this, redis`keys
      ensures owned == {}
      ensures forall s: Shard :: KeyOf(redis.keys, s) ==
                if s in old(owned) && HeldBy(KeyOf(old(redis.keys), s), workerId, redis.now) then None
                else KeyOf(old(redis.keys), s)
    {
      var todo := owned;
      while todo != {}
        invariant todo <= old(owned)
        invariant forall s: Shard :: KeyOf(redis.keys, s) ==
                    if s in old(owned) && s !in todo && HeldBy(KeyOf(old(redis.keys), s), workerId, redis.now) then None
                    else KeyOf(old(redis.keys), s)
      {
        var s :| s in todo;
        var holder := redis.Get(s);
        if holder == Some(workerId) { redis.Del(s); }
        todo := todo - {s};
      }
      owned := {};
    }
  }

  /** A claim that landed without its reply: the key names a worker that does not own the shard, and until it
      expires no tick of anybody changes that. */
  lemma UnconfirmedClaimBlocksUntilExpiry(k: Option<Key>, w: WorkerId, now: Time, peer: WorkerId, later: Time, ttl: nat)
    requires Live(k, now).None?
    ensures var key := TickShard(k, false, w, now, ttl).key;
      TickShard(key, false, peer, later, ttl) == Ticked(key, false) <==> later < now + ttl
  {
  }

  // ----- many workers, one shard, command by command -----

  /** A batch being applied: by whom, and the expiry in force when its fence check passed. */
  datatype Batch = Batch(worker: WorkerId, until: Time)

  /** `releasing` are the workers between the GET and the DEL of a release. */
  datatype State = State(now: Time, key: Option<Key>, releasing: set<WorkerId>, batches: map<nat, Batch>)

  const Init := State(0, None, {}, map[])

  datatype Action =
    | Pass(ms: nat)
    | Claim(w: WorkerId)
    | Renew(w: WorkerId)
    | ReleaseGet(w: WorkerId)
    | ReleaseDel(w: WorkerId)
    /** A consumer of `w` checks the fence and, if it passes, starts applying batch `b`. */
    | Fence(w: WorkerId, b: nat)
    | Finish(b: nat)

  predicate Enabled(s: State, a: Action) {
    match a
    case ReleaseDel(w) => w in s.releasing
    case Fence(_, b) => b !in s.batches
    case Finish(b) => b in s.batches
    case _ => true
  }

  predicate PassesFence(s: State, w: WorkerId) {
    HeldBy(s.key, w, s.now)
  }

  function Step(s: State, a: Action, ttl: nat): State {
    match a
    case Pass(ms) => s.(now := s.now + ms)
    case Claim(w) => s.(key := Claimed(s.key, w, s.now, ttl))
    case Renew(w) => s.(key := Renewed(s.key, w, s.now, ttl))
    case ReleaseGet(w) => if HeldBy(s.key, w, s.now) then s.(releasing := s.releasing + {w}) else s
    case ReleaseDel(w) => s.(key := None, releasing := s.releasing - {w})
    case Fence(w, b) => if PassesFence(s, w) then s.(batches := s.batches[b := Batch(w, s.key.value.expiry)]) else s
    case Finish(b) => s.(batches := s.batches - {b})
  }

  /** The batch is still inside the expiry that was in force at its fence check. */
  predicate InTime(s: State, b: nat) {
    b in s.batches && s.now < s.batches[b].until
  }

  /** Every batch still in time is covered by its worker's lease, for as long as it is in time. */
  ghost predicate Covered(s: State, ttl: nat) {
    && (s.key.Some? ==> s.key.value.expiry <= s.now + ttl)
    && forall b :: InTime(s, b) ==>
         s.key.Some? && s.key.value.holder == s.batches[b].worker && s.key.value.expiry >= s.batches[b].until
  }

  /** The one command that can uncover a batch, and exactly when it does: a DEL while a batch is in time. */
  lemma DeleteUncoversIff(s: State, a: Action, ttl: nat)
    requires Covered(s, ttl) && Enabled(s, a)
    ensures Covered(Step(s, a, ttl), ttl) <==> !(a.ReleaseDel? && exists b :: InTime(s, b))
  {
    var s' := Step(s, a, ttl);
    if a.ReleaseDel? {
      if exists b :: InTime(s, b) {
        var b :| InTime(s, b);
        assert InTime(s', b);
      } else {
        assert forall b :: InTime(s', b) ==> InTime(s, b);
      }
    } else {
      forall b | InTime(s', b)
        ensures s'.key.Some? && s'.key.value.holder == s'.batches[b].worker && s'.key.value.expiry >= s'.batches[b].until
      {
        if b in s.batches && s'.batches[b] == s.batches[b] {
          assert InTime(s, b);
        }
      }
    }
  }

  ghost predicate IsRun(run: seq<State>, actions: seq<Action>, ttl: nat) {
    && |run| == |actions| + 1 && run[0] == Init
    && forall k :: 0 <= k < |actions| ==> Enabled(run[k], actions[k]) && run[k + 1] == Step(run[k], actions[k], ttl)
  }

  /** No release reaches its DEL while some batch is still in time. */
  ghost predicate NoDeleteInTime(run: seq<State>, actions: seq<Action>)
    requires |run| == |actions| + 1
  {
    forall k, b :: 0 <= k < |actions| && actions[k].ReleaseDel? ==> !InTime(run[k], b)
  }

  lemma {:induction false} RunsAreCovered(run: seq<State>, actions: seq<Action>, ttl: nat, k: nat)
    requires IsRun(run, actions, ttl) && NoDeleteInTime(run, actions) && k < |run|
    ensures Covered(run[k], ttl)
  {
    if k > 0 {
      RunsAreCovered(run, actions, ttl, k - 1);
      hide Covered, Step, Enabled;
      DeleteUncoversIff(run[k - 1], actions[k - 1], ttl);
    }
  }

  /** While a batch is inside the expiry in force at its fence check, no other worker passes the fence,
      and no other worker has a batch in time. */
  lemma FenceIsExclusive(run: seq<State>, actions: seq<Action>, ttl: nat, k: nat, b: nat, peer: WorkerId)
    requires IsRun(run, actions, ttl) && NoDeleteInTime(run, actions) && k < |run|
    requires InTime(run[k], b) && peer != run[k].batches[b].worker
    ensures !PassesFence(run[k], peer)
    ensures forall c :: InTime(run[k], c) ==> run[k].batches[c].worker == run[k].batches[b].worker
  {
    RunsAreCovered(run, actions, ttl, k);
  }

  /** GET and DEL are not split: at the DEL the key is still the releaser's. */
  ghost predicate ReleasesNotSplit(run: seq<State>, actions: seq<Action>)
    requires |run| == |actions| + 1
  {
    forall k :: 0 <= k < |actions| && actions[k].ReleaseDel? ==> HeldBy(run[k].key, actions[k].w, run[k].now)
  }

  /** A worker does not delete its lease under a batch of its own. */
  ghost predicate ReleasesAfterDraining(run: seq<State>, actions: seq<Action>)
    requires |run| == |actions| + 1
  {
    forall k, b :: 0 <= k < |actions| && actions[k].ReleaseDel? && InTime(run[k], b) ==> run[k].batches[b].worker != actions[k].w
  }

  lemma {:induction false} OrderlyRunsAreCovered(run: seq<State>, actions: seq<Action>, ttl: nat, k: nat)
    requires IsRun(run, actions, ttl) && ReleasesNotSplit(run, actions) && ReleasesAfterDraining(run, actions) && k < |run|
    ensures Covered(run[k], ttl)
  {
    if k > 0 {
      OrderlyRunsAreCovered(run, actions, ttl, k - 1);
      hide Step, Enabled;
      DeleteUncoversIff(run[k - 1], actions[k - 1], ttl);
    }
  }

  /** The exclusivity the fence is for, under what a release must respect: it is not split by an expiry,
      and it waits for the worker's own batches. */
  lemma OrderlyReleasesKeepFenceExclusive(run: seq<State>, actions: seq<Action>, ttl: nat, k: nat, b: nat, peer: WorkerId)
    requires IsRun(run, actions, ttl) && ReleasesNotSplit(run, actions) && ReleasesAfterDraining(run, actions) && k < |run|
    requires InTime(run[k], b) && peer != run[k].batches[b].worker
    ensures !PassesFence(run[k], peer)
    ensures forall c :: InTime(run[k], c) ==> run[k].batches[c].worker == run[k].batches[b].worker
  {
    OrderlyRunsAreCovered(run, actions, ttl, k);
  }

  /** In a run whose releases are not split, a live lease is extended or removed by its holder alone. */
  lemma OnlyTheHolderMovesALease(run: seq<State>, actions: seq<Action>, ttl: nat, k: nat, w: WorkerId)
    requires IsRun(run, actions, ttl) && ReleasesNotSplit(run, actions) && k < |actions| && HeldBy(run[k].key, w, run[k].now)
    requires run[k + 1].key != run[k].key
    ensures actions[k] == Renew(w) || actions[k] == ReleaseDel(w)
    ensures actions[k] == Renew(w) ==> run[k + 1].key == Some(Key(w, run[k].now + ttl))
  {
    assert run[k + 1] == Step(run[k], actions[k], ttl);
  }

  // ----- a lease that is renewed in time is kept -----

  /** What a tick does to a shard is one step of this system, a renewal of an owned shard or a claim of another;
      and the tick owns the shard afterwards exactly if that step has just set the expiry. */
  lemma TickShardIsStep(s: State, owned: bool, w: WorkerId, ttl: nat)
    requires ttl > 0
    ensures var ticked := TickShard(s.key, owned, w, s.now, ttl);
      && ticked.key == Step(s, if owned then Renew(w) else Claim(w), ttl).key
      && (ticked.owned <==> if owned then HeldBy(s.key, w, s.now) else Live(s.key, s.now).None?)
      && (ticked.owned ==> ticked.key == Some(Key(w, s.now + ttl)) && HeldBy(ticked.key, w, s.now))
      && (!ticked.owned ==> ticked.key == s.key)
  {
  }

  /** The worker claimed or renewed its lease just before state `r`, and `j` is less than a TTL later. */
  ghost predicate RenewedWithin(run: seq<State>, actions: seq<Action>, ttl: nat, i: nat, r: nat, j: nat, w: WorkerId)
    requires |run| == |actions| + 1 && j < |run|
  {
    i <= r <= j && (r == i || actions[r - 1] == Renew(w)) && run[j].now < run[r].now + ttl
  }

  /** From state `i` to state `k` no two renewals of the worker are a TTL apart. */
  ghost predicate RenewsInTime(run: seq<State>, actions: seq<Action>, ttl: nat, i: nat, k: nat, w: WorkerId)
    requires |run| == |actions| + 1 && k < |run|
  {
    forall j :: i <= j <= k ==> RenewedLately(run, actions, ttl, i, j, w)
  }

  ghost predicate RenewedLately(run: seq<State>, actions: seq<Action>, ttl: nat, i: nat, j: nat, w: WorkerId)
    requires |run| == |actions| + 1 && j < |run|
  {
    exists r :: RenewedWithin(run, actions, ttl, i, r, j, w)
  }

  lemma {:induction false} TimeGrows(run: seq<State>, actions: seq<Action>, ttl: nat, i: nat, k: nat)
    requires IsRun(run, actions, ttl) && i <= k < |run|
    ensures run[i].now <= run[k].now
  {
    if i < k {
      TimeGrows(run, actions, ttl, i, k - 1);
    }
  }

  /** The lease outlasts the TTL of every renewal so far. */
  ghost predicate OutlastsRenewals(run: seq<State>, actions: seq<Action>, ttl: nat, i: nat, k: nat, w: WorkerId)
    requires |run| == |actions| + 1 && k < |run|
  {
    && run[k].key.Some? && run[k].key.value.holder == w
    && forall r :: i <= r <= k && (r == i || actions[r - 1] == Renew(w)) ==> run[r].now + ttl <= run[k].key.value.expiry
  }

  lemma {:induction false} LeaseOutlastsRenewals(
      run: seq<State>, actions: seq<Action>, ttl: nat, i: nat, k: nat, w: WorkerId)
    requires IsRun(run, actions, ttl) && i <= k < |run| && run[i].key == Some(Key(w, run[i].now + ttl))
    requires RenewsInTime(run, actions, ttl, i, k, w) && forall j :: i <= j < k ==> !actions[j].ReleaseDel?
    ensures OutlastsRenewals(run, actions, ttl, i, k, w) && HeldBy(run[k].key, w, run[k].now)
  {
    if i < k {
      LeaseOutlastsRenewals(run, actions, ttl, i, k - 1, w);
      hide IsRun;
      OutlastsStep(run, actions, ttl, i, k - 1, k, w);
    }
    assert RenewedLately(run, actions, ttl, i, k, w);
    var r :| RenewedWithin(run, actions, ttl, i, r, k, w);
  }

  lemma OutlastsStep(run: seq<State>, actions: seq<Action>, ttl: nat, i: nat, j: nat, k: nat, w: WorkerId)
    requires IsRun(run, actions, ttl) && i <= j && k == j + 1 < |run| && !actions[j].ReleaseDel?
    requires OutlastsRenewals(run, actions, ttl, i, j, w) && HeldBy(run[j].key, w, run[j].now)
    ensures OutlastsRenewals(run, actions, ttl, i, k, w)
  {
    assert run[k] == Step(run[j], actions[j], ttl);
    forall r | i <= r <= k && (r == i || actions[r - 1] == Renew(w)) ensures run[r].now + ttl <= run[k].key.value.expiry {
      if r <= j {
        TimeGrows(run, actions, ttl, r, j);
      }
    }
  }

  /** Whatever the peers do, a worker whose renewals come less than a TTL apart holds its lease throughout, and no
      tick of it reports the shard lost, exactly if no release deletes the key in between. */
  lemma TimelyRenewalsKeepLeaseIff(run: seq<State>, actions: seq<Action>, ttl: nat, i: nat, k: nat, w: WorkerId)
    requires IsRun(run, actions, ttl) && i <= k < |run| && run[i].key == Some(Key(w, run[i].now + ttl))
    requires RenewsInTime(run, actions, ttl, i, k, w)
    ensures (forall j :: i <= j <= k ==> HeldBy(run[j].key, w, run[j].now) && TickShard(run[j].key, true, w, run[j].now, ttl).owned)
      <==> (forall j :: i <= j < k ==> !actions[j].ReleaseDel?)
  {
    if forall j :: i <= j < k ==> !actions[j].ReleaseDel? {
      forall j | i <= j <= k
        ensures HeldBy(run[j].key, w, run[j].now) && TickShard(run[j].key, true, w, run[j].now, ttl).owned
      {
        LeaseOutlastsRenewals(run, actions, ttl, i, j, w);
      }
    } else {
      var j :| i <= j < k && actions[j].ReleaseDel?;
      assert run[j + 1] == Step(run[j], actions[j], ttl);
      assert !HeldBy(run[j + 1].key, w, run[j + 1].now);
    }
  }

  /** A renewal that comes a TTL late is refused and reports the loss. */
  lemma LateRenewalLosesLease(w: WorkerId, renewed: Time, now: Time, ttl: nat)
    requires renewed <= now
    ensures TickShard(Some(Key(w, renewed + ttl)), true, w, now, ttl).owned <==> now < renewed + ttl
  {
  }

  // ----- both hypotheses are needed -----

  /** Two workers apply batches at once, each inside the expiry in force at its own fence check. */
  ghost predicate DoubleProcessing(s: State) {
    exists b, c :: InTime(s, b) && InTime(s, c) && s.batches[b].worker != s.batches[c].worker
  }

  ghost predicate Reachable(s: State, ttl: nat) {
    exists run, actions :: IsRun(run, actions, ttl) && run[|actions|] == s
  }

  lemma ReachStep(s: State, a: Action, ttl: nat)
    requires Reachable(s, ttl) && Enabled(s, a)
    ensures Reachable(Step(s, a, ttl), ttl)
  {
    var run, actions :| IsRun(run, actions, ttl) && run[|actions|] == s;
    assert IsRun(run + [Step(s, a, ttl)], actions + [a], ttl);
  }

  lemma InitReachable(ttl: nat)
    ensures Reachable(Init, ttl)
  {
    assert IsRun([Init], [], ttl);
  }

  /** No batch outlasts the key in force, whoever holds it. */
  lemma {:induction false} KeyOutlastsBatches(run: seq<State>, actions: seq<Action>, ttl: nat, k: nat)
    requires IsRun(run, actions, ttl) && k < |run|
    ensures var s := run[k];
      && (s.key.Some? ==> s.key.value.expiry <= s.now + ttl)
      && (forall b :: b in s.batches ==> s.batches[b].until <= s.now + ttl)
      && (s.key.Some? ==> forall b :: b in s.batches ==> s.batches[b].until <= s.key.value.expiry)
  {
    if k > 0 {
      KeyOutlastsBatches(run, actions, ttl, k - 1);
    }
  }

  /** What an uncovered batch means: from there a peer is at most a claim and a fence check away from applying
      a batch of its own at the same time. */
  lemma UncoveredMeansDoubleProcessing(s: State, ttl: nat)
    requires Reachable(s, ttl) && ttl > 0 && !Covered(s, ttl)
    ensures exists t :: Reachable(t, ttl) && DoubleProcessing(t)
  {
    var run, actions :| IsRun(run, actions, ttl) && run[|actions|] == s;
    KeyOutlastsBatches(run, actions, ttl, |actions|);
    var b :| InTime(s, b) &&
      !(s.key.Some? && s.key.value.holder == s.batches[b].worker && s.key.value.expiry >= s.batches[b].until);
    var other := s.batches[b].worker + 1;
    var peer := if s.key.Some? then s.key.value.holder else other;
    var c := FreshBatch(s.batches);
    hide Reachable;
    ReachStep(s, Claim(peer), ttl);
    var t := Step(s, Claim(peer), ttl);
    assert PassesFence(t, peer);
    ReachStep(t, Fence(peer, c), ttl);
    var u := Step(t, Fence(peer, c), ttl);
    assert InTime(u, b) && InTime(u, c);
  }

  lemma FreshBatch(batches: map<nat, Batch>) returns (c: nat)
    ensures c !in batches
  {
    c := FreshNumber(batches.Keys);
  }

  lemma {:induction false} FreshNumber(used: set<nat>) returns (c: nat)
    ensures forall x :: x in used ==> x < c
    decreases used
  {
    c := 0;
    if used != {} {
      var x :| x in used;
      var d := FreshNumber(used - {x});
      assert forall y :: y in used ==> y == x || y in used - {x};
      c := if x < d then d else x + 1;
    }
  }

  /** The run up to the moment worker 1's late DEL has freed worker 2's lease. */
  lemma SplitReleaseFrees()
    ensures Reachable(State(30_000, None, {}, map[0 := Batch(2, 60_000)]), 30_000)
  {
    var ttl, two := 30_000, Some(Key(2, 60_000));
    SplitReleaseExpires();
    hide Reachable;
    ReachStep(State(30_000, Some(Key(1, 30_000)), {1}, map[]), Claim(2), ttl);
    ReachStep(State(30_000, two, {1}, map[]), Fence(2, 0), ttl);
    ReachStep(State(30_000, two, {1}, map[0 := Batch(2, 60_000)]), ReleaseDel(1), ttl);
    assert {1} - {1} == {};
  }

  lemma SplitReleaseExpires()
    ensures Reachable(State(30_000, Some(Key(1, 30_000)), {1}, map[]), 30_000)
  {
    var ttl := 30_000;
    InitReachable(ttl);
    hide Reachable;
    ReachStep(Init, Claim(1), ttl);
    ReachStep(State(0, Some(Key(1, 30_000)), {}, map[]), ReleaseGet(1), ttl);
    assert {} + {1} == {1};
    ReachStep(State(0, Some(Key(1, 30_000)), {1}, map[]), Pass(30_000), ttl);
  }

  /** A release split by an expiry: worker 1 reads its own id, its lease runs out, worker 2 claims and
      passes the fence, and worker 1's DEL frees worker 2's lease for worker 3. */
  lemma SplitReleaseBreaksExclusivity()
    ensures exists s :: Reachable(s, 30_000) && DoubleProcessing(s)
  {
    var ttl, three := 30_000, Some(Key(3, 60_000));
    SplitReleaseFrees();
    hide Reachable;
    ReachStep(State(30_000, None, {}, map[0 := Batch(2, 60_000)]), Claim(3), ttl);
    var s := State(30_000, three, {}, map[0 := Batch(2, 60_000)]);
    ReachStep(s, Fence(3, 1), ttl);
    var t := Step(s, Fence(3, 1), ttl);
    assert InTime(t, 0) && InTime(t, 1);
  }

  lemma EarlyReleaseFrees()
    ensures Reachable(State(0, None, {}, map[0 := Batch(1, 30_000)]), 30_000)
  {
    var ttl, one := 30_000, Some(Key(1, 30_000));
    InitReachable(ttl);
    hide Reachable;
    ReachStep(Init, Claim(1), ttl);
    ReachStep(State(0, one, {}, map[]), Fence(1, 0), ttl);
    ReachStep(State(0, one, {}, map[0 := Batch(1, 30_000)]), ReleaseGet(1), ttl);
    assert {} + {1} == {1} && {1} - {1} == {};
    ReachStep(State(0, one, {1}, map[0 := Batch(1, 30_000)]), ReleaseDel(1), ttl);
  }

  /** A release under the worker's own batch: the GET and the DEL are not split, and still the next
      holder passes the fence while the batch is in time. */
  lemma EarlyReleaseBreaksExclusivity()
    ensures exists s :: Reachable(s, 30_000) && DoubleProcessing(s)
  {
    var ttl, two := 30_000, Some(Key(2, 30_000));
    EarlyReleaseFrees();
    hide Reachable;
    ReachStep(State(0, None, {}, map[0 := Batch(1, 30_000)]), Claim(2), ttl);
    var s := State(0, two, {}, map[0 := Batch(1, 30_000)]);
    ReachStep(s, Fence(2, 1), ttl);
    var t := Step(s, Fence(2, 1), ttl);
    assert InTime(t, 0) && InTime(t, 1);
  }
}
