/**
 * Refresh-token rotation against session eviction, as transactions interleaved statement by
 * statement under READ COMMITTED: a statement sees what is committed, an UPDATE waits for a row
 * another transaction holds, and an open transaction's writes become visible when it commits.
 * Timestamps are arbitrary: nothing assumes that clocks agree.
 */
module Auth {
  import opened Options

  type UserId = nat
  type FamilyId = nat
  type Hash = nat
  type TxId = nat

  /** A row of refresh_tokens. */
  datatype Token = Token(family: FamilyId, user: UserId, createdAt: int, expiresAt: int, rotated: bool, revoked: bool)

  predicate Live(row: Token, now: int) {
    !row.rotated && !row.revoked && row.expiresAt > now
  }

  /** How a token came to be: by login (no parent) or by rotating `parent`, itself created at `parentCreatedAt`. */
  datatype Origin = Origin(user: UserId, family: FamilyId, parent: Option<Hash>, parentCreatedAt: int)

  datatype Request = Request(hash: Hash, now: int, successor: Hash, successorCreatedAt: int, successorExpiresAt: int)

  /** An open transaction, named by the statements it has behind it. */
  datatype Tx =
    | RotateStart(req: Request)
    | RotateOwner(req: Request, user: UserId)
    | RotateLocked(req: Request, user: UserId, epoch: Option<int>)
    | RotateClaimed(req: Request, user: UserId, epoch: Option<int>, row: Token)
    | RotateDone(req: Request, user: UserId, row: Token, mint: bool)
    | EvictStart(user: UserId, now: int)
    | EvictStamped(user: UserId, now: int)
    | EvictSweeping(user: UserId, now: int, covered: set<Hash>, todo: set<Hash>, hit: set<Hash>)
  {
    /** The users row this transaction has locked. */
    function HeldUser(): Option<UserId> {
      if RotateLocked? || RotateClaimed? || RotateDone? || EvictStamped? || EvictSweeping? then Some(user) else None
    }

    /** The refresh_tokens rows this transaction has locked. */
    function HeldTokens(): set<Hash> {
      if RotateClaimed? || RotateDone? then {req.hash} else if EvictSweeping? then hit else {}
    }
  }

  /** A committed eviction; `covered` is every token of the user that was committed when its sweep started. */
  datatype Eviction = Eviction(user: UserId, now: int, covered: set<Hash>)

  /** The committed rows, and the history the properties speak about: the origin of every token ever
      committed, the committed evictions, and whether some eviction stamped an epoch older than the
      one it replaced. */
  datatype Db = Db(
    tokens: map<Hash, Token>,
    epoch: map<UserId, int>,
    origin: map<Hash, Origin>,
    evictions: seq<Eviction>,
    epochWentBack: bool)

  datatype State = State(db: Db, txs: map<TxId, Tx>)

  const Init := State(Db(map[], map[], map[], [], false), map[])

  datatype Action =
    | BeginRotate(t: TxId, req: Request)
    | BeginEvict(t: TxId, user: UserId, now: int)
    /** The next statement, or the commit, of transaction `t`. */
    | Advance(t: TxId)
    /** One row of the sweep of transaction `t`. */
    | SweepRow(t: TxId, h: Hash)
    | Abort(t: TxId)
    | Create(h: Hash, family: FamilyId, user: UserId, createdAt: int, expiresAt: int)
    | ClaimForRotation(h: Hash, now: int)
    | RevokeFamily(family: FamilyId)
    | Prune(hashes: set<Hash>, cutoff: int, now: int)

  predicate UserHeldByOther(txs: map<TxId, Tx>, t: TxId, u: UserId) {
    exists x :: x in txs && x != t && txs[x].HeldUser() == Some(u)
  }

  predicate TokenHeldByOther(txs: map<TxId, Tx>, t: TxId, h: Hash) {
    exists x :: x in txs && x != t && h in txs[x].HeldTokens()
  }

  predicate TokenHeld(txs: map<TxId, Tx>, h: Hash) {
    exists x :: x in txs && h in txs[x].HeldTokens()
  }

  function EpochOf(db: Db, u: UserId): Option<int> {
    if u in db.epoch then Some(db.epoch[u]) else None
  }

  predicate Claimable(db: Db, req: Request) {
    req.hash in db.tokens && Live(db.tokens[req.hash], req.now)
  }

  /** The statement can run now: nothing it must lock is held by another transaction. */
  predicate CanAdvance(s: State, t: TxId)
    requires t in s.txs
  {
    match s.txs[t]
    case RotateStart(_) => true
    case RotateOwner(_, u) => !UserHeldByOther(s.txs, t, u)
    case RotateLocked(req, _, _) => Claimable(s.db, req) ==> !TokenHeldByOther(s.txs, t, req.hash)
    case RotateClaimed(_, _, _, _) => true
    case RotateDone(req, _, _, mint) => mint ==> req.successor !in s.db.origin
    case EvictStart(u, _) => !UserHeldByOther(s.txs, t, u)
    case EvictStamped(_, _) => true
    case EvictSweeping(_, _, _, todo, _) => todo == {}
  }

  predicate Enabled(s: State, a: Action) {
    match a
    case BeginRotate(t, _) => t !in s.txs
    case BeginEvict(t, _, _) => t !in s.txs
    case Advance(t) => t in s.txs && CanAdvance(s, t)
    case SweepRow(t, h) =>
      t in s.txs && s.txs[t].EvictSweeping? && h in s.txs[t].todo && !TokenHeldByOther(s.txs, t, h)
    case Abort(t) => t in s.txs
    case Create(h, _, _, _, _) => h !in s.db.origin
    case ClaimForRotation(h, _) => !TokenHeld(s.txs, h)
    case RevokeFamily(family) =>
      forall h :: h in s.db.tokens && s.db.tokens[h].family == family ==> !TokenHeld(s.txs, h)
    case Prune(hashes, cutoff, now) =>
      forall h :: h in hashes ==>
        && h in s.db.tokens && !TokenHeld(s.txs, h) && s.db.tokens[h].expiresAt < cutoff
        && (s.db.tokens[h].revoked || s.db.tokens[h].rotated || s.db.tokens[h].expiresAt < now)
  }

  function Revoked(tokens: map<Hash, Token>, hit: set<Hash>): map<Hash, Token> {
    map h | h in tokens :: if h in hit then tokens[h].(revoked := true) else tokens[h]
  }

  /** The rows after a rotation that claimed its token, and minted a successor unless the epoch forbade it. */
  function CommitRotation(db: Db, req: Request, row: Token, mint: bool): Db {
    var claimed := db.tokens[req.hash := row.(rotated := true)];
    if !mint then db.(tokens := claimed)
    else
      db.(
        tokens := claimed[req.successor :=
          Token(row.family, row.user, req.successorCreatedAt, req.successorExpiresAt, false, false)],
        origin := db.origin[req.successor := Origin(row.user, row.family, Some(req.hash), row.createdAt)])
  }

  function CommitEviction(db: Db, u: UserId, now: int, covered: set<Hash>, hit: set<Hash>): Db {
    db.(
      tokens := Revoked(db.tokens, hit),
      epoch := db.epoch[u := now],
      evictions := db.evictions + [Eviction(u, now, covered)],
      epochWentBack := db.epochWentBack || (u in db.epoch && now < db.epoch[u]))
  }

  function Visible(db: Db, u: UserId): set<Hash> {
    set h | h in db.tokens && db.tokens[h].user == u && !db.tokens[h].revoked
  }

  function Covered(db: Db, u: UserId): set<Hash> {
    set h | h in db.origin && db.origin[h].user == u
  }

  /** An open transaction after its next statement, or `None` when that statement ends it. */
  function NextTx(db: Db, tx: Tx): Option<Tx> {
    match tx
    case RotateStart(req) =>
      if req.hash in db.tokens then Some(RotateOwner(req, db.tokens[req.hash].user)) else None
    case RotateOwner(req, u) => Some(RotateLocked(req, u, EpochOf(db, u)))
    case RotateLocked(req, u, epoch) =>
      if Claimable(db, req) then Some(RotateClaimed(req, u, epoch, db.tokens[req.hash])) else None
    case RotateClaimed(req, u, epoch, row) =>
      // a token minted at or before the epoch: return null, which COMMITS the claim
      Some(RotateDone(req, u, row, !(epoch.Some? && row.createdAt <= epoch.value)))
    case RotateDone(_, _, _, _) => None
    case EvictStart(u, now) => Some(EvictStamped(u, now))
    case EvictStamped(u, now) => Some(EvictSweeping(u, now, Covered(db, u), Visible(db, u), {}))
    case EvictSweeping(_, _, _, _, _) => None
  }

  /** The committed rows after the next statement: only a commit changes them. */
  function NextDb(db: Db, tx: Tx): Db {
    match tx
    case RotateDone(req, _, row, mint) => CommitRotation(db, req, row, mint)
    case EvictSweeping(u, now, covered, _, hit) => CommitEviction(db, u, now, covered, hit)
    case _ => db
  }

  function Swept(db: Db, tx: Tx, h: Hash): Tx
    requires tx.EvictSweeping?
  {
    var matches := h in db.tokens && !db.tokens[h].revoked;
    tx.(todo := tx.todo - {h}, hit := if matches then tx.hit + {h} else tx.hit)
  }

  function Created(db: Db, a: Action): Db
    requires a.Create?
  {
    db.(tokens := db.tokens[a.h := Token(a.family, a.user, a.createdAt, a.expiresAt, false, false)],
        origin := db.origin[a.h := Origin(a.user, a.family, None, 0)])
  }

  function Claimed(db: Db, h: Hash): Db
    requires h in db.tokens
  {
    db.(tokens := db.tokens[h := db.tokens[h].(rotated := true)])
  }

  function FamilyTokens(db: Db, family: FamilyId): set<Hash> {
    set h | h in db.tokens && db.tokens[h].family == family
  }

  function FamilyRevoked(db: Db, family: FamilyId): Db {
    db.(tokens := Revoked(db.tokens, FamilyTokens(db, family)))
  }

  function Pruned(db: Db, hashes: set<Hash>): Db {
    db.(tokens := db.tokens - hashes)
  }

  function Step(s: State, a: Action): State
    requires Enabled(s, a)
  {
    var db := s.db;
    match a
    case BeginRotate(t, req) => s.(txs := s.txs[t := RotateStart(req)])
    case BeginEvict(t, u, now) => s.(txs := s.txs[t := EvictStart(u, now)])
    case Advance(t) =>
      var next := NextTx(db, s.txs[t]);
      State(NextDb(db, s.txs[t]), if next.Some? then s.txs[t := next.value] else s.txs - {t})
    case SweepRow(t, h) => s.(txs := s.txs[t := Swept(db, s.txs[t], h)])
    case Abort(t) => s.(txs := s.txs - {t})
    case Create(_, _, _, _, _) => s.(db := Created(db, a))
    case ClaimForRotation(h, now) =>
      if h in db.tokens && Live(db.tokens[h], now)
      then s.(db := Claimed(db, h)) else s
    case RevokeFamily(family) =>
      s.(db := FamilyRevoked(db, family))
    case Prune(hashes, _, _) => s.(db := Pruned(db, hashes))
  }

  // ----- invariant -----

  /** Committed rows agree with their origin, and origins agree along a rotation. */
  ghost predicate RowsOk(db: Db) {
    && (forall h :: h in db.tokens ==>
          h in db.origin && db.origin[h].user == db.tokens[h].user && db.origin[h].family == db.tokens[h].family)
    && (forall h :: h in db.origin && db.origin[h].parent.Some? ==>
          var p := db.origin[h].parent.value;
          p in db.origin && db.origin[p].user == db.origin[h].user)
  }

  /** Row locks are exclusive, and whoever holds a token row holds its user's row. */
  ghost predicate LocksOk(tokens: map<Hash, Token>, txs: map<TxId, Tx>) {
    && (forall x, y :: x in txs && y in txs && txs[x].HeldUser().Some? && txs[x].HeldUser() == txs[y].HeldUser() ==> x == y)
    && (forall x, h :: x in txs && h in txs[x].HeldTokens() ==>
          h in tokens && txs[x].HeldUser() == Some(tokens[h].user))
  }

  ghost predicate TxOk(db: Db, tx: Tx) {
    match tx
    case RotateStart(_) => true
    case RotateOwner(req, u) => req.hash in db.origin && db.origin[req.hash].user == u
    case RotateLocked(req, u, epoch) =>
      req.hash in db.origin && db.origin[req.hash].user == u && epoch == EpochOf(db, u)
    case RotateClaimed(req, u, epoch, row) =>
      && req.hash in db.tokens && db.tokens[req.hash] == row && row.user == u && !row.rotated && !row.revoked
      && epoch == EpochOf(db, u)
    case RotateDone(req, u, row, mint) =>
      && req.hash in db.tokens && db.tokens[req.hash] == row && row.user == u && !row.rotated && !row.revoked
      && (mint <==> EpochOf(db, u) == None || row.createdAt > EpochOf(db, u).value)
    case EvictStart(_, _) => true
    case EvictStamped(_, _) => true
    case EvictSweeping(u, now, covered, todo, hit) => SweepOk(db, u, covered, todo, hit)
  }

  ghost predicate SweepOk(db: Db, u: UserId, covered: set<Hash>, todo: set<Hash>, hit: set<Hash>) {
    && (forall h :: h in covered ==> h in db.origin && db.origin[h].user == u)
    && (forall h :: h in todo || h in hit ==> h in covered)
    && (forall h :: h in covered && h in db.tokens ==> db.tokens[h].revoked || h in todo || h in hit)
    && (forall h :: h in db.origin && db.origin[h].parent.Some? && db.origin[h].user == u ==> h in covered)
  }

  ghost predicate TxsOk(db: Db, txs: map<TxId, Tx>) {
    forall x :: x in txs ==> TxOk(db, txs[x])
  }

  ghost predicate EvictionOk(db: Db, e: Eviction) {
    && (forall h :: h in e.covered ==> h in db.origin && db.origin[h].user == e.user)
    && (forall h :: h in e.covered && h in db.tokens ==> db.tokens[h].revoked)
    && (forall h :: h in db.origin && db.origin[h].parent.Some? && db.origin[h].parent.value in e.covered ==> h in e.covered)
    && (!db.epochWentBack ==>
          && e.user in db.epoch && db.epoch[e.user] >= e.now
          && forall h :: h in db.origin && db.origin[h].parent.Some? && db.origin[h].user == e.user && h !in e.covered ==>
               db.origin[h].parentCreatedAt > e.now)
  }

  ghost predicate EvictionsOk(db: Db) {
    forall i :: 0 <= i < |db.evictions| ==> EvictionOk(db, db.evictions[i])
  }

  ghost predicate Inv(s: State) {
    RowsOk(s.db) && LocksOk(s.db.tokens, s.txs) && TxsOk(s.db, s.txs) && EvictionsOk(s.db)
  }

  // ----- what a change of the committed rows leaves alone -----

  /** Origins are only added, rows only vanish or move towards revoked; tokens are minted, and an
      epoch stamped, for user `u` only, and for nobody if that is `None`. */
  ghost predicate Grows(db: Db, db': Db, u: Option<UserId>) {
    && (forall h :: h in db.origin ==> h in db'.origin && db'.origin[h] == db.origin[h])
    && (forall h :: h in db.origin && h in db'.tokens ==>
          && h in db.tokens
          && (db.tokens[h].revoked ==> db'.tokens[h].revoked)
          && db'.tokens[h].user == db.tokens[h].user)
    && (forall h :: h in db'.origin && h !in db.origin && db'.origin[h].parent.Some? ==> Some(db'.origin[h].user) == u)
    && (forall v: UserId :: Some(v) != u ==> EpochOf(db', v) == EpochOf(db, v))
  }

  ghost predicate RowsKept(db: Db, db': Db, held: set<Hash>) {
    forall h :: h in held ==> h in db.tokens && h in db'.tokens && db'.tokens[h] == db.tokens[h]
  }

  /** A transaction that holds neither the user of the change nor any changed row is unaffected. */
  lemma OtherTxKept(db: Db, db': Db, u: Option<UserId>, tx: Tx)
    requires Grows(db, db', u) && TxOk(db, tx) && (u.Some? ==> tx.HeldUser() != u)
    requires RowsKept(db, db', tx.HeldTokens())
    ensures TxOk(db', tx)
  {
    if tx.EvictSweeping? {
      assert SweepOk(db', tx.user, tx.covered, tx.todo, tx.hit);
    }
  }

  lemma OtherTxsKept(db: Db, db': Db, u: Option<UserId>, txs: map<TxId, Tx>)
    requires Grows(db, db', u) && TxsOk(db, txs) && LocksOk(db.tokens, txs)
    requires forall x :: x in txs ==> (u.Some? ==> txs[x].HeldUser() != u) && RowsKept(db, db', txs[x].HeldTokens())
    ensures TxsOk(db', txs) && LocksOk(db'.tokens, txs)
  {
    hide TxOk, Grows;
    forall x | x in txs ensures TxOk(db', txs[x]) {
      OtherTxKept(db, db', u, txs[x]);
    }
  }

  /** A committed eviction survives a change that mints nothing from a covered token. */
  lemma EvictionKept(db: Db, db': Db, u: Option<UserId>, e: Eviction)
    requires Grows(db, db', u) && EvictionOk(db, e)
    requires !db'.epochWentBack ==> !db.epochWentBack
    requires u.Some? && !db'.epochWentBack && u.value in db.epoch ==>
               u.value in db'.epoch && db'.epoch[u.value] >= db.epoch[u.value]
    requires forall h :: h in db'.origin && h !in db.origin && db'.origin[h].parent.Some? ==>
               && db'.origin[h].parent.value !in e.covered
               && (db'.origin[h].user in db.epoch ==> db'.origin[h].parentCreatedAt > db.epoch[db'.origin[h].user])
    ensures EvictionOk(db', e)
  {
    if !db'.epochWentBack {
      assert EpochOf(db, e.user).Some?;
      assert Some(e.user) != u ==> EpochOf(db', e.user) == EpochOf(db, e.user);
    }
  }

  // ----- every step keeps the invariant -----

  /** A statement that only changes its own transaction. */
  lemma TxChangeKeeps(s: State, t: TxId, tx: Tx)
    requires Inv(s) && TxOk(s.db, tx)
    requires tx.HeldUser().Some? ==> !UserHeldByOther(s.txs, t, tx.HeldUser().value)
    requires forall h :: h in tx.HeldTokens() ==> h in s.db.tokens && tx.HeldUser() == Some(s.db.tokens[h].user)
    ensures Inv(s.(txs := s.txs[t := tx]))
  {
    hide TxOk, RowsOk, EvictionsOk, FamiliesOk;
  }

  lemma CloseKeeps(s: State, t: TxId)
    requires Inv(s)
    ensures Inv(s.(txs := s.txs - {t}))
  {
    hide TxOk, RowsOk, EvictionsOk, FamiliesOk;
  }

  lemma HeldAlone(s: State, t: TxId)
    requires LocksOk(s.db.tokens, s.txs) && t in s.txs && s.txs[t].HeldUser().Some?
    ensures !UserHeldByOther(s.txs, t, s.txs[t].HeldUser().value)
  {
  }

  lemma HeldRows(s: State, t: TxId)
    requires LocksOk(s.db.tokens, s.txs) && t in s.txs
    ensures forall h :: h in s.txs[t].HeldTokens() ==>
              h in s.db.tokens && s.txs[t].HeldUser() == Some(s.db.tokens[h].user)
  {
  }

  lemma SweepRowKeeps(s: State, a: Action)
    requires Inv(s) && a.SweepRow? && Enabled(s, a)
    ensures Inv(Step(s, a))
  {
    var tx := s.txs[a.t];
    HeldAlone(s, a.t);
    HeldRows(s, a.t);
    assert TxOk(s.db, tx);
    TxChangeKeeps(s, a.t, Swept(s.db, tx, a.h));
  }

  lemma StatementKeeps(s: State, t: TxId)
    requires Inv(s) && t in s.txs && CanAdvance(s, t) && NextTx(s.db, s.txs[t]).Some?
    ensures Inv(s.(txs := s.txs[t := NextTx(s.db, s.txs[t]).value]))
  {
    var tx, next := s.txs[t], NextTx(s.db, s.txs[t]).value;
    assert TxOk(s.db, tx);
    NextTxOk(s.db, tx);
    if tx.HeldUser().Some? {
      HeldAlone(s, t);
    }
    TxChangeKeeps(s, t, next);
  }

  lemma NextTxOk(db: Db, tx: Tx)
    requires RowsOk(db) && TxOk(db, tx) && NextTx(db, tx).Some?
    ensures TxOk(db, NextTx(db, tx).value)
    ensures forall h :: h in NextTx(db, tx).value.HeldTokens() ==>
              h in db.tokens && NextTx(db, tx).value.HeldUser() == Some(db.tokens[h].user)
  {
  }

  /** Rows that no open transaction holds changed, and nothing was minted or stamped. */
  lemma LooseChangeKeeps(s: State, db': Db)
    requires Inv(s) && RowsOk(db') && Grows(s.db, db', None)
    requires db'.evictions == s.db.evictions && db'.epochWentBack == s.db.epochWentBack
    requires forall x :: x in s.txs ==> RowsKept(s.db, db', s.txs[x].HeldTokens())
    ensures Inv(s.(db := db'))
  {
    hide TxOk, RowsOk, LocksOk;
    OtherTxsKept(s.db, db', None, s.txs);
    forall i | 0 <= i < |db'.evictions| ensures EvictionOk(db', db'.evictions[i]) {
      EvictionKept(s.db, db', None, db'.evictions[i]);
    }
  }

  /** The locks of the other transactions, once `t` is gone. */
  lemma OthersAfterClose(s: State, t: TxId, db': Db, u: UserId)
    requires Inv(s) && t in s.txs && s.txs[t].HeldUser() == Some(u)
    requires Grows(s.db, db', Some(u))
    requires forall h :: h in s.db.tokens && s.db.tokens[h].user != u ==> h in db'.tokens && db'.tokens[h] == s.db.tokens[h]
    ensures var rest := s.txs - {t}; TxsOk(db', rest) && LocksOk(db'.tokens, rest)
  {
    hide TxOk, RowsOk, EvictionsOk, Grows;
    OtherTxsKept(s.db, db', Some(u), s.txs - {t});
  }

  lemma RotationCommitKeeps(s: State, t: TxId)
    requires Inv(s) && t in s.txs && s.txs[t].RotateDone? && CanAdvance(s, t)
    ensures Inv(State(NextDb(s.db, s.txs[t]), s.txs - {t}))
  {
    hide LocksOk;
    var tx := s.txs[t];
    var db' := NextDb(s.db, tx);
    assert TxOk(s.db, tx);
    RotationRowsOk(s.db, tx);
    OthersAfterClose(s, t, db', tx.user);
    RotationEvictions(s.db, tx);
  }

  lemma RotationRowsOk(db: Db, tx: Tx)
    requires tx.RotateDone? && TxOk(db, tx) && RowsOk(db)
    requires tx.mint ==> tx.req.successor !in db.origin
    ensures var db' := NextDb(db, tx); RowsOk(db') && Grows(db, db', Some(tx.user))
  {
    RotationRowsAgree(db, tx.req, tx.row, tx.mint);
    RotationGrows(db, tx.req, tx.row, tx.mint);
  }

  lemma RotationRowsAgree(db: Db, req: Request, row: Token, mint: bool)
    requires RowsOk(db) && req.hash in db.tokens && db.tokens[req.hash] == row
    requires mint ==> req.successor !in db.origin
    ensures RowsOk(CommitRotation(db, req, row, mint))
  {
  }

  lemma RotationGrows(db: Db, req: Request, row: Token, mint: bool)
    requires RowsOk(db) && req.hash in db.tokens && db.tokens[req.hash] == row
    requires mint ==> req.successor !in db.origin
    ensures Grows(db, CommitRotation(db, req, row, mint), Some(row.user))
  {
  }

  lemma RotationEvictions(db: Db, tx: Tx)
    requires tx.RotateDone? && TxOk(db, tx) && RowsOk(db) && EvictionsOk(db)
    requires tx.mint ==> tx.req.successor !in db.origin
    requires Grows(db, NextDb(db, tx), Some(tx.user))
    ensures EvictionsOk(NextDb(db, tx))
  {
    var db' := NextDb(db, tx);
    forall i | 0 <= i < |db'.evictions| ensures EvictionOk(db', db'.evictions[i]) {
      var e := db.evictions[i];
      assert EvictionOk(db, e);
      assert tx.req.hash !in e.covered;
      EvictionKept(db, db', Some(tx.user), e);
    }
  }

  lemma EvictionCommitKeeps(s: State, t: TxId)
    requires Inv(s) && t in s.txs && s.txs[t].EvictSweeping? && CanAdvance(s, t)
    ensures Inv(State(NextDb(s.db, s.txs[t]), s.txs - {t}))
  {
    hide LocksOk;
    var tx := s.txs[t];
    var db' := NextDb(s.db, tx);
    assert TxOk(s.db, tx);
    EvictionRows(s.db, tx);
    OthersAfterClose(s, t, db', tx.user);
    EvictionHistory(s.db, tx);
  }

  lemma EvictionRows(db: Db, tx: Tx)
    requires tx.EvictSweeping? && TxOk(db, tx) && RowsOk(db)
    ensures var db' := NextDb(db, tx); RowsOk(db') && Grows(db, db', Some(tx.user))
    ensures var db' := NextDb(db, tx);
      forall h :: h in db.tokens && db.tokens[h].user != tx.user ==> h in db'.tokens && db'.tokens[h] == db.tokens[h]
  {
    var db' := NextDb(db, tx);
    assert SweepOk(db, tx.user, tx.covered, tx.todo, tx.hit);
    assert forall h :: h in tx.hit && h in db.tokens ==> db.tokens[h].user == tx.user;
    hide RowsOk, SweepOk, Grows;
    RevocationRows(db, db', tx.hit);
    EvictionGrows(db, tx.user, tx.now, tx.covered, tx.hit);
  }

  lemma EvictionGrows(db: Db, u: UserId, now: int, covered: set<Hash>, hit: set<Hash>)
    requires forall h :: h in hit && h in db.tokens ==> db.tokens[h].user == u
    ensures var db' := CommitEviction(db, u, now, covered, hit);
      && Grows(db, db', Some(u))
      && forall h :: h in db.tokens && db.tokens[h].user != u ==> h in db'.tokens && db'.tokens[h] == db.tokens[h]
  {
  }

  lemma RevocationRows(db: Db, db': Db, hit: set<Hash>)
    requires RowsOk(db) && db'.tokens == Revoked(db.tokens, hit) && db'.origin == db.origin
    ensures RowsOk(db')
  {
  }

  lemma EvictionHistory(db: Db, tx: Tx)
    requires tx.EvictSweeping? && tx.todo == {} && TxOk(db, tx) && RowsOk(db) && EvictionsOk(db)
    requires Grows(db, NextDb(db, tx), Some(tx.user))
    ensures EvictionsOk(NextDb(db, tx))
  {
    var db' := NextDb(db, tx);
    forall i | 0 <= i < |db'.evictions| ensures EvictionOk(db', db'.evictions[i]) {
      if i < |db.evictions| {
        EvictionKept(db, db', Some(tx.user), db.evictions[i]);
      } else {
        assert SweepOk(db, tx.user, tx.covered, tx.todo, tx.hit);
      }
    }
  }

  /** A change of rows no transaction holds keeps what every transaction has read. */
  lemma UnheldRowsChange(s: State, db': Db, changed: set<Hash>)
    requires LocksOk(s.db.tokens, s.txs)
    requires forall h :: h in changed && h in s.db.tokens ==> !TokenHeld(s.txs, h)
    requires forall h :: h in s.db.tokens && h !in changed ==> h in db'.tokens && db'.tokens[h] == s.db.tokens[h]
    ensures forall x :: x in s.txs ==> RowsKept(s.db, db', s.txs[x].HeldTokens())
  {
    forall x, h | x in s.txs && h in s.txs[x].HeldTokens() ensures h in s.db.tokens && h !in changed {
    }
  }

  lemma CreateKeeps(s: State, a: Action)
    requires Inv(s) && a.Create? && a.h !in s.db.origin
    ensures Inv(s.(db := Created(s.db, a)))
  {
    CreateRows(s.db, a);
    UnheldRowsChange(s, Created(s.db, a), {});
    hide TxOk, TxsOk, LocksOk, RowsKept, EvictionsOk, RowsOk, Grows;
    LooseChangeKeeps(s, Created(s.db, a));
  }

  lemma CreateRows(db: Db, a: Action)
    requires a.Create? && a.h !in db.origin && RowsOk(db)
    ensures RowsOk(Created(db, a)) && Grows(db, Created(db, a), None)
  {
  }

  lemma ClaimKeeps(s: State, h: Hash)
    requires Inv(s) && h in s.db.tokens && !TokenHeld(s.txs, h)
    ensures Inv(s.(db := Claimed(s.db, h)))
  {
    ClaimRows(s.db, h);
    UnheldRowsChange(s, Claimed(s.db, h), {h});
    hide TxOk, TxsOk, LocksOk, RowsKept, EvictionsOk, RowsOk, Grows;
    LooseChangeKeeps(s, Claimed(s.db, h));
  }

  lemma ClaimRows(db: Db, h: Hash)
    requires h in db.tokens && RowsOk(db)
    ensures RowsOk(Claimed(db, h)) && Grows(db, Claimed(db, h), None)
  {
  }

  lemma RevokeFamilyKeeps(s: State, family: FamilyId)
    requires Inv(s)
    requires forall h :: h in s.db.tokens && s.db.tokens[h].family == family ==> !TokenHeld(s.txs, h)
    ensures Inv(s.(db := FamilyRevoked(s.db, family)))
  {
    var db' := FamilyRevoked(s.db, family);
    RevocationRows(s.db, db', FamilyTokens(s.db, family));
    FamilyRevokedGrows(s.db, family);
    UnheldRowsChange(s, db', FamilyTokens(s.db, family));
    hide TxOk, TxsOk, LocksOk, RowsKept, EvictionsOk, RowsOk, Grows;
    LooseChangeKeeps(s, db');
  }

  lemma FamilyRevokedGrows(db: Db, family: FamilyId)
    ensures Grows(db, FamilyRevoked(db, family), None)
  {
  }

  lemma PruneKeeps(s: State, hashes: set<Hash>)
    requires Inv(s) && forall h :: h in hashes ==> !TokenHeld(s.txs, h)
    ensures Inv(s.(db := Pruned(s.db, hashes)))
  {
    PruneRows(s.db, hashes);
    UnheldRowsChange(s, Pruned(s.db, hashes), hashes);
    hide TxOk, TxsOk, LocksOk, RowsKept, EvictionsOk, RowsOk, Grows;
    LooseChangeKeeps(s, Pruned(s.db, hashes));
  }

  lemma PruneRows(db: Db, hashes: set<Hash>)
    requires RowsOk(db)
    ensures var db' := Pruned(db, hashes); RowsOk(db') && Grows(db, db', None)
  {
  }

  lemma BeginKeeps(s: State, t: TxId, tx: Tx)
    requires Inv(s) && t !in s.txs && (tx.RotateStart? || tx.EvictStart?)
    ensures Inv(s.(txs := s.txs[t := tx]))
  {
    TxChangeKeeps(s, t, tx);
  }

  lemma StepKeeps(s: State, a: Action)
    requires Inv(s) && Enabled(s, a)
    ensures Inv(Step(s, a))
  {
    hide Inv, CommitRotation, CommitEviction, Claimable, Created, Claimed, FamilyRevoked, Pruned;
    match a {
      case BeginRotate(t, req) => BeginKeeps(s, t, RotateStart(req));
      case BeginEvict(t, u, now) => BeginKeeps(s, t, EvictStart(u, now));
      case Advance(t) =>
        if s.txs[t].RotateDone? { RotationCommitKeeps(s, t); }
        else if s.txs[t].EvictSweeping? { EvictionCommitKeeps(s, t); }
        else if NextTx(s.db, s.txs[t]).Some? { StatementKeeps(s, t); }
        else { CloseKeeps(s, t); }
      case SweepRow(_, _) => SweepRowKeeps(s, a);
      case Abort(t) => CloseKeeps(s, t);
      case Create(_, _, _, _, _) => CreateKeeps(s, a);
      case ClaimForRotation(h, now) =>
        if h in s.db.tokens && Live(s.db.tokens[h], now) { ClaimKeeps(s, h); }
      case RevokeFamily(family) => RevokeFamilyKeeps(s, family);
      case Prune(hashes, _, _) => PruneKeeps(s, hashes);
    }
  }

  // ----- runs -----

  /** The states after each step of a run from the empty database. */
  ghost predicate IsRun(run: seq<State>, actions: seq<Action>) {
    && |run| == |actions| + 1
    && run[0] == Init
    && forall i :: 0 <= i < |actions| ==> Enabled(run[i], actions[i]) && run[i + 1] == Step(run[i], actions[i])
  }

  lemma {:induction false} ReachableOk(run: seq<State>, actions: seq<Action>, i: nat)
    requires IsRun(run, actions) && i < |run|
    ensures Inv(run[i])
  {
    if i > 0 {
      hide Inv, Step, Enabled;
      ReachableOk(run, actions, i - 1);
      StepKeeps(run[i - 1], actions[i - 1]);
    } else {
      InitOk();
    }
  }

  lemma InitOk()
    ensures Inv(Init)
  {
  }

  /** `line` leads from its first token to its last by rotation, each the successor of the one before. */
  ghost predicate DescendsAlong(origin: map<Hash, Origin>, line: seq<Hash>) {
    && line != []
    && forall k :: 0 < k < |line| ==> line[k] in origin && origin[line[k]].parent == Some(line[k - 1])
  }

  /** Once an eviction has committed, no token it could see, and no token descended from one by any
      number of rotations, can authenticate anything, at any time and however statements interleave. */
  lemma {:induction false} EvictedTokensStayDead(
      run: seq<State>, actions: seq<Action>, i: nat, e: Eviction, line: seq<Hash>)
    requires IsRun(run, actions) && i < |run| && e in run[i].db.evictions
    requires DescendsAlong(run[i].db.origin, line) && line[0] in e.covered
    ensures line[|line| - 1] in e.covered
    ensures var h := line[|line| - 1]; h in run[i].db.tokens ==> forall now :: !Live(run[i].db.tokens[h], now)
    decreases |line|
  {
    ReachableOk(run, actions, i);
    if |line| > 1 {
      EvictedTokensStayDead(run, actions, i, e, line[..|line| - 1]);
    }
  }

  /** The epoch does its own part: as long as no eviction stamped a time older than the one before it,
      a token minted for an evicted user after the sweep comes from a parent younger than the stamp. */
  lemma EpochStopsOlderParents(run: seq<State>, actions: seq<Action>, i: nat, e: Eviction, h: Hash)
    requires IsRun(run, actions) && i < |run| && e in run[i].db.evictions && !run[i].db.epochWentBack
    requires h in run[i].db.origin && h !in e.covered
    requires run[i].db.origin[h].parent.Some? && run[i].db.origin[h].user == e.user
    ensures run[i].db.origin[h].parentCreatedAt > e.now
  {
    ReachableOk(run, actions, i);
  }

  // ----- families -----

  /** At most one successor per token, and a token with a successor is rotated. */
  ghost predicate SuccessorsOk(db: Db) {
    && (forall h :: h in db.origin && db.origin[h].parent.Some? && db.origin[h].parent.value in db.tokens ==>
          db.tokens[db.origin[h].parent.value].rotated)
    && (forall a, b ::
          (a in db.origin && b in db.origin && db.origin[a].parent.Some?
           && db.origin[a].parent == db.origin[b].parent) ==> a == b)
  }

  /** At most one unrotated token per family. */
  ghost predicate FamiliesOk(db: Db) {
    forall a, b ::
      (a in db.tokens && b in db.tokens && db.tokens[a].family == db.tokens[b].family
       && !db.tokens[a].rotated && !db.tokens[b].rotated) ==> a == b
  }

  /** A create into a family that has an unrotated token already. */
  ghost predicate DoublesFamily(db: Db, a: Action) {
    a.Create? && exists g :: g in db.tokens && db.tokens[g].family == a.family && !db.tokens[g].rotated
  }

  /** Rows vanish, are revoked or are rotated, and none is added. */
  ghost predicate AddsNoToken(db: Db, db': Db) {
    && db'.origin == db.origin
    && forall h :: h in db'.tokens ==>
         && h in db.tokens && db'.tokens[h].family == db.tokens[h].family
         && (db.tokens[h].rotated ==> db'.tokens[h].rotated)
  }

  lemma MintFamilies(db: Db, req: Request, row: Token)
    requires RowsOk(db) && SuccessorsOk(db) && req.successor !in db.origin
    requires req.hash in db.tokens && db.tokens[req.hash] == row && !row.rotated
    ensures var db' := CommitRotation(db, req, row, true);
      SuccessorsOk(db') && (FamiliesOk(db) ==> FamiliesOk(db'))
  {
  }

  lemma CreateFamilies(db: Db, a: Action)
    requires a.Create? && a.h !in db.origin && RowsOk(db) && SuccessorsOk(db)
    ensures SuccessorsOk(Created(db, a))
    ensures FamiliesOk(db) ==> (FamiliesOk(Created(db, a)) <==> !DoublesFamily(db, a))
  {
    var db' := Created(db, a);
    if DoublesFamily(db, a) {
      var g :| g in db.tokens && db.tokens[g].family == a.family && !db.tokens[g].rotated;
      assert g in db'.tokens && a.h in db'.tokens && g != a.h && db'.tokens[g] == db.tokens[g];
    }
  }

  lemma StepAddsNoToken(s: State, a: Action)
    requires Inv(s) && Enabled(s, a) && !a.Create?
    requires a.Advance? && s.txs[a.t].RotateDone? ==> !s.txs[a.t].mint
    ensures AddsNoToken(s.db, Step(s, a).db)
  {
    hide RowsOk, EvictionsOk, LocksOk;
    if a.Advance? {
      assert TxOk(s.db, s.txs[a.t]);
    }
  }

  /** No step gives a token a second successor, and the one that gives a family a second unrotated token is a
      create into it. */
  lemma FamiliesKept(s: State, a: Action)
    requires Inv(s) && SuccessorsOk(s.db) && Enabled(s, a)
    ensures SuccessorsOk(Step(s, a).db)
    ensures FamiliesOk(s.db) ==> (FamiliesOk(Step(s, a).db) <==> !DoublesFamily(s.db, a))
  {
    if a.Create? {
      CreateFamilies(s.db, a);
      hide SuccessorsOk, FamiliesOk, DoublesFamily, Created;
    } else if a.Advance? && s.txs[a.t].RotateDone? && s.txs[a.t].mint {
      var tx := s.txs[a.t];
      assert TxOk(s.db, tx);
      MintFamilies(s.db, tx.req, tx.row);
      hide SuccessorsOk, FamiliesOk, CommitRotation;
    } else {
      StepAddsNoToken(s, a);
      hide Step, Enabled, Inv;
    }
  }

  lemma {:induction false} SuccessorsReachableOk(run: seq<State>, actions: seq<Action>, i: nat)
    requires IsRun(run, actions) && i < |run|
    ensures SuccessorsOk(run[i].db)
  {
    if i > 0 {
      hide Inv, Step, Enabled, SuccessorsOk, FamiliesOk, DoublesFamily;
      ReachableOk(run, actions, i - 1);
      SuccessorsReachableOk(run, actions, i - 1);
      FamiliesKept(run[i - 1], actions[i - 1]);
    }
  }

  /** However rotations of one token interleave, and whatever families logins open, at most one of them mints. */
  lemma OneSuccessor(run: seq<State>, actions: seq<Action>, i: nat, a: Hash, b: Hash)
    requires IsRun(run, actions) && i < |run| && a != b
    requires a in run[i].db.origin && b in run[i].db.origin && run[i].db.origin[a].parent.Some?
    ensures run[i].db.origin[a].parent != run[i].db.origin[b].parent
  {
    SuccessorsReachableOk(run, actions, i);
  }

  /** Throughout a run no family has two tokens that can still be rotated, if and only if no create of it went
      into a family with such a token. */
  lemma {:induction false} OneUnrotatedTokenIff(run: seq<State>, actions: seq<Action>, n: nat)
    requires IsRun(run, actions) && n < |run|
    ensures (forall i :: 0 <= i <= n ==> FamiliesOk(run[i].db)) <==>
            (forall k :: 0 <= k < n ==> !DoublesFamily(run[k].db, actions[k]))
  {
    assert FamiliesOk(Init.db);
    hide Inv, Step, Enabled, SuccessorsOk, FamiliesOk, DoublesFamily;
    if n > 0 {
      OneUnrotatedTokenIff(run, actions, n - 1);
      ReachableOk(run, actions, n - 1);
      SuccessorsReachableOk(run, actions, n - 1);
      FamiliesKept(run[n - 1], actions[n - 1]);
      assert run[n] == Step(run[n - 1], actions[n - 1]);
      if forall k :: 0 <= k < n - 1 ==> !DoublesFamily(run[k].db, actions[k]) {
        assert FamiliesOk(run[n].db) <==> !DoublesFamily(run[n - 1].db, actions[n - 1]);
      }
    }
  }

  /** Logins do open fresh families, and then it holds. */
  lemma FreshFamiliesSuffice(run: seq<State>, actions: seq<Action>, n: nat)
    requires IsRun(run, actions) && n < |run|
    requires forall k :: 0 <= k < n && actions[k].Create? ==>
               forall g :: g in run[k].db.origin ==> run[k].db.origin[g].family != actions[k].family
    ensures FamiliesOk(run[n].db)
  {
    forall k | 0 <= k < n ensures !DoublesFamily(run[k].db, actions[k]) {
      ReachableOk(run, actions, k);
    }
    hide FamiliesOk, DoublesFamily;
    OneUnrotatedTokenIff(run, actions, n);
  }

  // ----- a refused rotation -----

  /** The last statement of a rotation and its commit. It mints exactly when the token is younger than the last
      eviction of its user; the token is spent either way: refusing returns null, and returning commits. */
  lemma RotationSpendsItsToken(run: seq<State>, actions: seq<Action>, i: nat, t: TxId)
    requires IsRun(run, actions) && i < |actions| && actions[i] == Advance(t) && run[i].txs[t].RotateDone?
    ensures var tx, db, db' := run[i].txs[t], run[i].db, run[i + 1].db;
      && tx.req.hash in db.tokens && !db.tokens[tx.req.hash].rotated && !db.tokens[tx.req.hash].revoked
      && tx.req.hash in db'.tokens && db'.tokens[tx.req.hash] == db.tokens[tx.req.hash].(rotated := true)
      && (tx.mint <==> EpochOf(db, tx.user).None? || db.tokens[tx.req.hash].createdAt > EpochOf(db, tx.user).value)
      && (tx.mint ==>
            && db'.origin.Keys == db.origin.Keys + {tx.req.successor} && db'.origin[tx.req.successor].parent == Some(tx.req.hash)
            && FreshToken(run[i + 1], tx.req.successor, db.tokens[tx.req.hash].user, db.tokens[tx.req.hash].family,
                          tx.req.successorCreatedAt, tx.req.successorExpiresAt))
      && (!tx.mint ==> db'.tokens.Keys == db.tokens.Keys && db'.origin == db.origin)
  {
    ReachableOk(run, actions, i);
    assert TxOk(run[i].db, run[i].txs[t]);
    hide RowsOk, LocksOk, EvictionsOk;
    assert run[i + 1] == Step(run[i], actions[i]);
  }

  ghost predicate Reachable(s: State) {
    exists run, actions :: IsRun(run, actions) && run[|actions|] == s
  }

  lemma ReachStep(s: State, a: Action)
    requires Reachable(s) && Enabled(s, a)
    ensures Reachable(Step(s, a))
  {
    hide Step, Enabled;
    var run, actions :| IsRun(run, actions) && run[|actions|] == s;
    assert IsRun(run + [Step(s, a)], actions + [a]);
  }

  /** The database after one eviction, and after a login whose clock is behind that of the eviction. */
  const EVICTED := Db(map[], map[0 := 10], map[], [Eviction(0, 10, {})], false)
  const LOGGED_IN := EVICTED.(tokens := map[1 := Token(0, 0, 5, 100, false, false)], origin := map[1 := Origin(0, 0, None, 0)])

  /** A transaction that is alone is never kept waiting. */
  lemma AloneAdvances(db: Db, t: TxId, tx: Tx)
    requires Reachable(State(db, map[t := tx])) && !tx.RotateDone? && !tx.EvictSweeping? && NextTx(db, tx).Some?
    ensures Reachable(State(db, map[t := NextTx(db, tx).value]))
  {
    hide Reachable;
    var s := State(db, map[t := tx]);
    assert CanAdvance(s, t);
    ReachStep(s, Advance(t));
    assert map[t := tx][t := NextTx(db, tx).value] == map[t := NextTx(db, tx).value];
  }

  lemma EvictionReachable()
    ensures Reachable(State(EVICTED, map[]))
  {
    assert Reachable(Init) by {
      assert IsRun([Init], []);
    }
    hide Reachable;
    var db := Init.db;
    ReachStep(Init, BeginEvict(0, 0, 10));
    AloneAdvances(db, 0, EvictStart(0, 10));
    AloneAdvances(db, 0, EvictStamped(0, 10));
    assert Covered(db, 0) == {} && Visible(db, 0) == {};
    EvictionOfNobody();
  }

  lemma EvictionOfNobody()
    requires Reachable(State(Init.db, map[0 := EvictSweeping(0, 10, {}, {}, {})]))
    ensures Reachable(State(EVICTED, map[]))
  {
    hide Reachable;
    var sweeping := State(Init.db, map[0 := EvictSweeping(0, 10, {}, {}, {})]);
    ReachStep(sweeping, Advance(0));
    assert sweeping.txs - {0} == map[] && Revoked(map[], {}) == map[];
    assert CommitEviction(Init.db, 0, 10, {}, {}) == EVICTED;
  }

  /** A rotation of that login's token is refused. */
  lemma RefusalReachable()
    ensures exists s :: Reachable(s) && 1 in s.txs && s.txs[1].RotateDone? && !s.txs[1].mint
  {
    EvictionReachable();
    hide Reachable;
    var row, req := Token(0, 0, 5, 100, false, false), Request(1, 20, 2, 20, 200);
    ReachStep(State(EVICTED, map[]), Create(1, 0, 0, 5, 100));
    ReachStep(State(LOGGED_IN, map[]), BeginRotate(1, req));
    AloneAdvances(LOGGED_IN, 1, RotateStart(req));
    AloneAdvances(LOGGED_IN, 1, RotateOwner(req, 0));
    AloneAdvances(LOGGED_IN, 1, RotateLocked(req, 0, Some(10)));
    AloneAdvances(LOGGED_IN, 1, RotateClaimed(req, 0, Some(10), row));
    assert State(LOGGED_IN, map[1 := RotateDone(req, 0, row, false)]).txs[1].RotateDone?;
  }

  // ----- how a token lives -----

  /** The token of row `h` can still be rotated, its expiry aside. */
  ghost predicate Unspent(db: Db, h: Hash) {
    h in db.tokens && !db.tokens[h].rotated && !db.tokens[h].revoked
  }

  ghost predicate CommitEnds(tx: Tx, h: Hash) {
    match tx
    case RotateDone(req, _, _, _) => h == req.hash
    case EvictSweeping(_, _, _, _, hit) => h in hit
    case _ => false
  }

  /** The step spends the token of row `h`: a commit of its rotation, of a sweep that reached it, a claim
      outside a transaction, a revocation of its family, or a purge that names it. */
  ghost predicate Ends(s: State, a: Action, h: Hash) {
    match a
    case Advance(t) => t in s.txs && CommitEnds(s.txs[t], h)
    case ClaimForRotation(g, now) => g == h && h in s.db.tokens && s.db.tokens[h].expiresAt > now
    case RevokeFamily(family) => h in s.db.tokens && s.db.tokens[h].family == family
    case Prune(hashes, _, _) => h in hashes
    case _ => false
  }

  /** A step leaves an unspent token as it is, or it ends it; a sweep ends only tokens of its own user. */
  lemma StepOnToken(s: State, a: Action, h: Hash)
    requires Inv(s) && Enabled(s, a) && Unspent(s.db, h)
    ensures var db' := Step(s, a).db;
      if Ends(s, a, h) then !Unspent(db', h) else h in db'.tokens && db'.tokens[h] == s.db.tokens[h]
    ensures Ends(s, a, h) && a.Advance? ==> s.txs[a.t].user == s.db.tokens[h].user
  {
    hide LocksOk, EvictionsOk;
    if a.Advance? {
      assert TxOk(s.db, s.txs[a.t]);
    }
  }

  /** A spent token, purged or not, is never unspent again. */
  lemma SpentStaysSpent(s: State, a: Action, h: Hash)
    requires Inv(s) && Enabled(s, a) && h in s.db.origin && !Unspent(s.db, h)
    ensures h in Step(s, a).db.origin && !Unspent(Step(s, a).db, h)
  {
    hide LocksOk, EvictionsOk;
    if a.Advance? {
      assert TxOk(s.db, s.txs[a.t]);
    }
  }

  /** In every run an unspent token keeps its row, field by field, exactly as long as no step ends it. */
  lemma {:induction false} UnspentUntilEnded(run: seq<State>, actions: seq<Action>, i: nat, k: nat, h: Hash)
    requires IsRun(run, actions) && i <= k < |run| && Unspent(run[i].db, h)
    ensures h in run[k].db.origin
    ensures Unspent(run[k].db, h) <==> forall j :: i <= j < k ==> !Ends(run[j], actions[j], h)
    ensures Unspent(run[k].db, h) ==> run[k].db.tokens[h] == run[i].db.tokens[h]
  {
    hide Inv, Step, Enabled, Unspent, Ends;
    if i == k {
      ReachableOk(run, actions, i);
      UnspentHasOrigin(run[i], h);
    } else {
      UnspentUntilEnded(run, actions, i, k - 1, h);
      ReachableOk(run, actions, k - 1);
      TokenAfterStep(run[k - 1], actions[k - 1], h);
    }
  }

  lemma UnspentHasOrigin(s: State, h: Hash)
    requires Inv(s) && Unspent(s.db, h)
    ensures h in s.db.origin
  {
  }

  lemma TokenAfterStep(s: State, a: Action, h: Hash)
    requires Inv(s) && Enabled(s, a) && h in s.db.origin
    ensures var db' := Step(s, a).db;
      && h in db'.origin
      && (Unspent(db', h) <==> Unspent(s.db, h) && !Ends(s, a, h))
      && (Unspent(db', h) ==> h in s.db.tokens && h in db'.tokens && db'.tokens[h] == s.db.tokens[h])
  {
    hide Inv, Step, Enabled, Ends;
    if Unspent(s.db, h) {
      OriginStays(s, a, h);
      StepOnToken(s, a, h);
    } else {
      SpentStaysSpent(s, a, h);
    }
  }

  lemma OriginStays(s: State, a: Action, h: Hash)
    requires Enabled(s, a) && h in s.db.origin
    ensures h in Step(s, a).db.origin
  {
  }

  /** A token that is in the table from some step on, and usable until it expires. */
  ghost predicate FreshToken(s: State, h: Hash, user: UserId, family: FamilyId, createdAt: int, expiresAt: int) {
    && h in s.db.tokens && s.db.tokens[h].user == user && s.db.tokens[h].family == family
    && s.db.tokens[h].createdAt == createdAt && s.db.tokens[h].expiresAt == expiresAt
    && forall now :: Live(s.db.tokens[h], now) <==> now < expiresAt
  }

  /** The successor of a committed rotation belongs to the user and the family of the token it replaces and
      has the requested times; no other row changes but the rotated one. It is live until it expires. */
  lemma SuccessorIsLive(run: seq<State>, actions: seq<Action>, i: nat, t: TxId)
    requires IsRun(run, actions) && i < |actions| && actions[i] == Advance(t)
    requires run[i].txs[t].RotateDone? && run[i].txs[t].mint
    ensures var req, db, db' := run[i].txs[t].req, run[i].db, run[i + 1].db;
      && req.hash in db.tokens && req.successor !in db.tokens
      && FreshToken(run[i + 1], req.successor, db.tokens[req.hash].user, db.tokens[req.hash].family,
                    req.successorCreatedAt, req.successorExpiresAt)
      && db'.tokens.Keys == db.tokens.Keys + {req.successor}
      && forall h :: h in db.tokens && h != req.hash ==> db'.tokens[h] == db.tokens[h]
  {
    ReachableOk(run, actions, i);
    assert TxOk(run[i].db, run[i].txs[t]);
    hide LocksOk, EvictionsOk;
    assert run[i + 1] == Step(run[i], actions[i]);
  }

  /** A login's token is live until it expires. */
  lemma LoginIsLive(run: seq<State>, actions: seq<Action>, i: nat)
    requires IsRun(run, actions) && i < |actions| && actions[i].Create?
    ensures var a := actions[i]; FreshToken(run[i + 1], a.h, a.user, a.family, a.createdAt, a.expiresAt)
    ensures forall h :: h in run[i].db.tokens ==> h in run[i + 1].db.tokens && run[i + 1].db.tokens[h] == run[i].db.tokens[h]
  {
    ReachableOk(run, actions, i);
    hide LocksOk, EvictionsOk;
    assert run[i + 1] == Step(run[i], actions[i]);
  }

  /** From its minting on, by login or by rotation, a token authenticates at a time exactly if that is before
      its expiry and none of these has happened to it: a committed rotation or claim, a committed sweep of its
      user, a revocation of its family, a purge. */
  lemma LiveUntilEnded(run: seq<State>, actions: seq<Action>, i: nat, k: nat, h: Hash, now: int)
    requires IsRun(run, actions) && i <= k < |run|
    requires exists user, family, createdAt, expiresAt :: FreshToken(run[i], h, user, family, createdAt, expiresAt)
    ensures h in run[i].db.tokens
    ensures (h in run[k].db.tokens && Live(run[k].db.tokens[h], now)) <==>
            now < run[i].db.tokens[h].expiresAt && forall j :: i <= j < k ==> !Ends(run[j], actions[j], h)
  {
    var row := run[i].db.tokens[h];
    assert Live(row, row.expiresAt - 1);
    hide IsRun, Ends;
    UnspentUntilEnded(run, actions, i, k, h);
  }

  /** The sweep of an eviction covers every token its user ever had committed when it starts, and its commit
      revokes those still in the table, stamps the epoch and leaves every other row alone. */
  lemma EvictionCoversItsUser(run: seq<State>, actions: seq<Action>, i: nat, t: TxId)
    requires IsRun(run, actions) && i < |actions| && actions[i] == Advance(t)
    ensures run[i].txs[t].EvictStamped? ==>
      && t in run[i + 1].txs && run[i + 1].txs[t].EvictSweeping?
      && forall h :: h in run[i + 1].txs[t].covered <==> h in run[i].db.origin && run[i].db.origin[h].user == run[i].txs[t].user
    ensures run[i].txs[t].EvictSweeping? ==>
      var tx, db, db' := run[i].txs[t], run[i].db, run[i + 1].db;
      && db'.evictions == db.evictions + [Eviction(tx.user, tx.now, tx.covered)]
      && EpochOf(db', tx.user) == Some(tx.now) && db'.tokens.Keys == db.tokens.Keys
      && forall h :: h in db.tokens ==>
           if h in tx.covered then db'.tokens[h] == db.tokens[h].(revoked := true) else db'.tokens[h] == db.tokens[h]
  {
    ReachableOk(run, actions, i);
    assert TxOk(run[i].db, run[i].txs[t]);
    hide LocksOk, EvictionsOk;
    assert run[i + 1] == Step(run[i], actions[i]);
  }

  /** The claim of a rotation goes through exactly when the row is there, unrotated, unrevoked and not
      expired; nothing is written before the commit. */
  lemma ClaimIff(s: State, t: TxId)
    requires Enabled(s, Advance(t)) && s.txs[t].RotateLocked?
    ensures var req, s' := s.txs[t].req, Step(s, Advance(t));
      && (t in s'.txs <==> Unspent(s.db, req.hash) && s.db.tokens[req.hash].expiresAt > req.now)
      && (t in s'.txs ==> s'.txs[t].RotateClaimed? && s'.txs[t].row == s.db.tokens[req.hash])
      && s'.db == s.db
  {
  }

  /** In a quiet database a live token younger than the last eviction can be rotated: the rotation can run to
      its commit, and then the successor is live until it expires. */
  lemma LiveTokenCanBeRotated(db: Db, req: Request)
    requires Reachable(State(db, map[]))
    requires req.hash in db.tokens && Live(db.tokens[req.hash], req.now) && req.successor !in db.origin
    requires var u := db.tokens[req.hash].user; u in db.epoch ==> db.tokens[req.hash].createdAt > db.epoch[u]
    ensures exists s :: Reachable(s) && s.txs == map[] && FreshToken(
      s, req.successor, db.tokens[req.hash].user, db.tokens[req.hash].family, req.successorCreatedAt, req.successorExpiresAt)
  {
    var row := db.tokens[req.hash];
    var u, epoch := row.user, EpochOf(db, row.user);
    hide Reachable;
    ReachStep(State(db, map[]), BeginRotate(0, req));
    AloneAdvances(db, 0, RotateStart(req));
    AloneAdvances(db, 0, RotateOwner(req, u));
    AloneAdvances(db, 0, RotateLocked(req, u, epoch));
    AloneAdvances(db, 0, RotateClaimed(req, u, epoch, row));
    RotationCanCommit(db, 0, RotateDone(req, u, row, true));
  }

  lemma RotationCanCommit(db: Db, t: TxId, tx: Tx)
    requires Reachable(State(db, map[t := tx])) && tx.RotateDone? && tx.mint && tx.req.successor !in db.origin
    ensures exists s :: Reachable(s) && s.txs == map[] && FreshToken(
      s, tx.req.successor, tx.row.user, tx.row.family, tx.req.successorCreatedAt, tx.req.successorExpiresAt)
  {
    hide Reachable;
    var s := State(db, map[t := tx]);
    ReachStep(s, Advance(t));
    var s' := Step(s, Advance(t));
    assert s'.txs == map[];
    assert FreshToken(s', tx.req.successor, tx.row.user, tx.row.family, tx.req.successorCreatedAt, tx.req.successorExpiresAt);
  }

  // ----- waiting -----

  /** The next statement of `t` needs a row that `x` holds. */
  ghost predicate WaitsFor(s: State, t: TxId, x: TxId) {
    t in s.txs && x in s.txs && t != x &&
    match s.txs[t]
    case RotateOwner(_, u) => s.txs[x].HeldUser() == Some(u)
    case EvictStart(u, _) => s.txs[x].HeldUser() == Some(u)
    case RotateLocked(req, _, _) => Claimable(s.db, req) && req.hash in s.txs[x].HeldTokens()
    case EvictSweeping(_, _, _, todo, _) => exists h :: h in todo && h in s.db.tokens && h in s.txs[x].HeldTokens()
    case _ => false
  }

  /** A transaction that others wait for never waits itself, so no cycle of waiting can close; and
      rotations and evictions only ever wait for a users row. */
  lemma NoWaitingChain(run: seq<State>, actions: seq<Action>, i: nat, t: TxId, x: TxId)
    requires IsRun(run, actions) && i < |run| && WaitsFor(run[i], t, x)
    ensures run[i].txs[t].RotateOwner? || run[i].txs[t].EvictStart?
    ensures run[i].txs[t].HeldUser() == None && run[i].txs[t].HeldTokens() == {}
    ensures forall y :: !WaitsFor(run[i], x, y)
  {
    ReachableOk(run, actions, i);
    assert TxOk(run[i].db, run[i].txs[t]) && TxOk(run[i].db, run[i].txs[x]);
  }
}
