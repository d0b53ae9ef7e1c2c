/**
 Reset tokens under concurrency.  Transactions that issue and consume tokens
 interleave between their statements; row locks on token rows are explicit.  An
 UPDATE sees the tokens committed when it starts (READ COMMITTED), may then have
 to wait for a row another transaction has changed, and tests that row again
 once it gets it.  A step that would have to wait leaves the state as it is.
 */
module TokenRaces {
  import PortalAccounts
  import opened ResetTokens

  type UserId = PortalAccounts.UserId
  type Hash = PortalAccounts.Hash
  type TxId = nat

  datatype Tx =
    // consumeResetToken
    | Asking(token: Token, hash: Hash)                                 // the SELECT saw a usable token
    | Holding(token: Token, hash: Hash)                                // FOR UPDATE OF t granted
    | Retiring(token: Token, hash: Hash, seen: set<Token>)             // the UPDATE of the tokens has started
    | Consumed(token: Token, hash: Hash, seen: set<Token>, marks: set<Token>)
    // issueResetToken
    | Drawn(user: UserId, token: Token)
    | Looking(user: UserId, token: Token, seen: set<Token>)            // its UPDATE has started
    | Marked(user: UserId, token: Token, seen: set<Token>, marks: set<Token>)
  {
    predicate Issues() { Drawn? || Looking? || Marked? }

    predicate Sees() { Retiring? || Consumed? || Looking? || Marked? }
  }

  /** A committed issue or consume of one of the user's tokens, and the tokens
      its UPDATE saw. */
  datatype Retirement = Retirement(token: Token, user: UserId, issue: bool, seen: set<Token>)

  /** The committed database, the token rows locked, the transactions in
      progress, and what happened so far: every token a consume has committed
      with, every committed retirement, and the moments (steps taken so far) at
      which a token was committed and its issue's UPDATE started. */
  datatype Sys = Sys(
    db: Db, lock: map<Token, TxId>, txs: map<TxId, Tx>, wins: multiset<Token>, retired: set<Retirement>,
    time: nat, committed: map<Token, nat>, looked: map<Token, nat>)

  datatype Step =
    | BeginConsume(tx: TxId, token: Token, hash: Hash)
    | LockToken(tx: TxId)
    | BeginIssue(tx: TxId, user: UserId, token: Token)
    | Look(tx: TxId)         // the UPDATE of the tokens starts: its snapshot
    | Mark(tx: TxId)         // it has its rows
    | Commit(tx: TxId)
    | Abort(tx: TxId)
    | Tick(secs: nat)

  function End(s: Sys, tx: TxId): Sys {
    s.(txs := s.txs - {tx}, lock := map t | t in s.lock && s.lock[t] != tx :: s.lock[t])
  }

  /** The unused tokens of `user` that an UPDATE with this snapshot marks. */
  function Marks(db: Db, user: UserId, seen: set<Token>): set<Token> {
    set t | t in seen && t in db.tokens && db.tokens[t].user == user && !db.tokens[t].used
  }

  predicate Free(s: Sys, tx: TxId, marks: set<Token>) {
    forall t :: t in marks && t in s.lock ==> s.lock[t] == tx
  }

  function LockAll(lock: map<Token, TxId>, marks: set<Token>, tx: TxId): map<Token, TxId> {
    map t | t in lock.Keys + marks :: if t in marks then tx else lock[t]
  }

  function Used(tokens: map<Token, Row>, marks: set<Token>): map<Token, Row> {
    map t | t in tokens :: if t in marks then tokens[t].(used := true) else tokens[t]
  }

  /** Rows a day past expiry go, except those another transaction has locked. */
  function PurgedFree(s: Sys, tx: TxId): map<Token, Row> {
    map t | t in s.db.tokens
        && (t in Purged(s.db.tokens, s.db.now) || (t in s.lock && s.lock[t] != tx)) :: s.db.tokens[t]
  }

  function DoLockToken(s: Sys, tx: TxId): Sys {
    if tx !in s.txs || !s.txs[tx].Asking? || s.txs[tx].token in s.lock then s
    else
      var t := s.txs[tx].token;
      // Granted: used_at is tested again on the newest version of the row.
      if t !in s.db.tokens || s.db.tokens[t].used then End(s, tx)
      else s.(lock := s.lock[t := tx], txs := s.txs[tx := Holding(t, s.txs[tx].hash)])
  }

  function DoLook(s: Sys, tx: TxId): Sys {
    if tx !in s.txs then s
    else match s.txs[tx]
      case Holding(t, hash) => s.(txs := s.txs[tx := Retiring(t, hash, s.db.tokens.Keys)])
      case Drawn(user, t) =>
        s.(txs := s.txs[tx := Looking(user, t, s.db.tokens.Keys)], looked := s.looked[t := s.time])
      case _ => s
  }

  function TakeRows(s: Sys, tx: TxId, marks: set<Token>, next: Tx): Sys {
    if !Free(s, tx, marks) then s else s.(lock := LockAll(s.lock, marks, tx), txs := s.txs[tx := next])
  }

  function DoMark(s: Sys, tx: TxId): Sys {
    if tx !in s.txs then s
    else match s.txs[tx]
      case Retiring(t, hash, seen) =>
        if t !in s.db.tokens then s
        else
          var marks := Marks(s.db, s.db.tokens[t].user, seen);
          TakeRows(s, tx, marks, Consumed(t, hash, seen, marks))
      case Looking(user, t, seen) =>
        var marks := Marks(s.db, user, seen);
        TakeRows(s, tx, marks, Marked(user, t, seen, marks))
      case _ => s
  }

  function CommitConsume(s: Sys, tx: TxId, t: Token, hash: Hash, seen: set<Token>, marks: set<Token>): Sys
    requires t in s.db.tokens
  {
    var id := s.db.tokens[t].user;
    var reset := PortalAccounts.SetPassword(id, hash);
    var users := if id in s.db.users then s.db.users[id := PortalAccounts.NewRow(reset, s.db.users[id])]
        else s.db.users;
    End(s.(db := s.db.(users := users, tokens := Used(s.db.tokens, marks)), wins := s.wins + multiset{t},
           retired := s.retired + {Retirement(t, id, false, seen)}), tx)
  }

  function CommitIssue(s: Sys, tx: TxId, user: UserId, t: Token, seen: set<Token>, marks: set<Token>): Sys {
    var link := Row(user, s.db.now + RESET_TTL_SECS, false);
    End(s.(db := s.db.(tokens := Used(PurgedFree(s, tx), marks)[t := link]),
           retired := s.retired + {Retirement(t, user, true, seen)}, committed := s.committed[t := s.time]), tx)
  }

  function DoCommit(s: Sys, tx: TxId): Sys {
    if tx !in s.txs then s
    else match s.txs[tx]
      case Consumed(t, hash, seen, marks) =>
        if t !in s.db.tokens then s else CommitConsume(s, tx, t, hash, seen, marks)
      case Marked(user, t, seen, marks) => CommitIssue(s, tx, user, t, seen, marks)
      case _ => s
  }

  function Effect(s: Sys, step: Step): Sys {
    match step
    case BeginConsume(tx, t, hash) =>
      if tx in s.txs || !Usable(s.db, t) then s else s.(txs := s.txs[tx := Asking(t, hash)])
    case LockToken(tx) => DoLockToken(s, tx)
    case BeginIssue(tx, user, t) =>
      if tx in s.txs || user !in s.db.users || t in s.db.issued then s
      else s.(txs := s.txs[tx := Drawn(user, t)], db := s.db.(issued := s.db.issued + {t}))
    case Look(tx) => DoLook(s, tx)
    case Mark(tx) => DoMark(s, tx)
    case Commit(tx) => DoCommit(s, tx)
    case Abort(tx) => End(s, tx)
    case Tick(secs) => s.(db := s.db.(now := s.db.now + secs))
  }

  function Apply(s: Sys, step: Step): Sys { Effect(s, step).(time := s.time + 1) }

  function Run(s: Sys, steps: seq<Step>): Sys
    decreases |steps|
  {
    if steps == [] then s else Run(Apply(s, steps[0]), steps[1..])
  }

  /** Nothing in progress; the tokens there are count as committed before the run. */
  function Start(db: Db): Sys { Sys(db, map[], map[], multiset{}, {}, 1, map t | t in db.tokens :: 0, map[]) }

  // ---- what every step keeps ------------------------------------------------------------

  /** The transaction has this token's row, unused, locked. */
  predicate Held(s: Sys, tx: TxId, t: Token) {
    t in s.lock && s.lock[t] == tx && t in s.db.tokens && !s.db.tokens[t].used
  }

  /** The UPDATE took every row it saw that is still the user's and unused. */
  predicate Took(s: Sys, tx: TxId, user: UserId, seen: set<Token>, marks: set<Token>) {
    && (forall m :: m in marks ==> m in seen && m in s.lock && s.lock[m] == tx)
    && (forall m :: m in marks && m in s.db.tokens ==> s.db.tokens[m].user == user)
    && Marks(s.db, user, seen) <= marks
  }

  /** The token is drawn but not committed, so nobody has seen it. */
  predicate Coming(s: Sys, t: Token) { t in s.db.issued && t !in s.committed }

  /** An issue's UPDATE saw exactly the tokens committed before it started. */
  predicate Timed(s: Sys, t: Token, seen: set<Token>) {
    && t in s.looked && s.looked[t] < s.time && seen <= s.committed.Keys
    && (forall u :: u in s.db.tokens ==> (u in seen <==> u in s.committed && s.committed[u] < s.looked[t]))
  }

  predicate TxInv(s: Sys, tx: TxId) {
    tx in s.txs &&
    match s.txs[tx]
    case Asking(_, _) => true
    case Holding(t, _) => Held(s, tx, t)
    case Retiring(t, _, seen) => Held(s, tx, t) && t in seen && seen <= s.committed.Keys
    case Consumed(t, _, seen, marks) =>
      Held(s, tx, t) && t in seen && seen <= s.committed.Keys && Took(s, tx, s.db.tokens[t].user, seen, marks)
    case Drawn(_, t) => Coming(s, t) && t !in s.looked
    case Looking(_, t, seen) => Coming(s, t) && Timed(s, t, seen)
    case Marked(user, t, seen, marks) => Coming(s, t) && Timed(s, t, seen) && Took(s, tx, user, seen, marks)
  }

  /** Two issues in progress have different tokens. */
  predicate Distinct(s: Sys) {
    forall tx, ty ::
      (tx in s.txs && ty in s.txs && s.txs[tx].Issues() && s.txs[ty].Issues() && s.txs[tx].token == s.txs[ty].token)
      ==> tx == ty
  }

  predicate TxsInv(s: Sys) { Distinct(s) && forall tx :: tx in s.txs ==> TxInv(s, tx) }

  predicate TokensInv(s: Sys) {
    && s.time > 0 && s.db.tokens.Keys <= s.committed.Keys <= s.db.issued && s.looked.Keys <= s.db.issued
    && (forall t :: t in s.committed ==> s.committed[t] < s.time)
  }

  predicate WinsInv(s: Sys) {
    forall t :: t in s.wins ==> s.wins[t] == 1 && t in s.committed && (t in s.db.tokens ==> s.db.tokens[t].used)
  }

  predicate RetirementInv(s: Sys, r: Retirement) {
    && r.token in s.committed && r.seen <= s.committed.Keys
    && (r.issue ==>
          && Timed(s, r.token, r.seen) && s.looked[r.token] < s.committed[r.token]
          && (r.token in s.db.tokens ==> s.db.tokens[r.token].user == r.user))
  }

  /** The token was committed by an issue of the run. */
  predicate IssuedHere(s: Sys, t: Token) { exists r :: r in s.retired && r.issue && r.token == t }

  predicate HistoryInv(s: Sys) {
    && (forall r :: r in s.retired ==> RetirementInv(s, r))
    && (forall t :: t in s.committed && s.committed[t] > 0 ==> IssuedHere(s, t))
  }

  predicate Inv(s: Sys) { TxsInv(s) && TokensInv(s) && WinsInv(s) && HistoryInv(s) }

  /** What a step of one transaction may do to the rest: rows and locks of the
      others stay, rows stay used, and a new row is one committed just now. */
  predicate Moves(s: Sys, s': Sys, tx: TxId) {
    && s'.time == s.time + 1 && s.db.issued <= s'.db.issued
    && (forall t :: t in s.lock && s.lock[t] != tx ==> t in s'.lock && s'.lock[t] == s.lock[t])
    && (forall t :: t in s.lock && s.lock[t] != tx && t in s.db.tokens ==>
          t in s'.db.tokens && s'.db.tokens[t] == s.db.tokens[t])
    && (forall t :: t in s'.db.tokens && t !in s.db.tokens ==> t !in s.committed && t in s'.committed)
    && (forall t :: t in s'.db.tokens && t in s.db.tokens ==>
          (s'.db.tokens[t].user == s.db.tokens[t].user && (s.db.tokens[t].used ==> s'.db.tokens[t].used)))
    && (forall t :: t in s.committed ==> t in s'.committed && s'.committed[t] == s.committed[t])
    && (forall t :: t in s'.committed && t !in s.committed ==>
          s'.committed[t] == s.time && tx in s.txs && s.txs[tx].Issues() && t == s.txs[tx].token)
    && (forall t :: t in s.looked ==> t in s'.looked && s'.looked[t] == s.looked[t])
    && (forall t :: t in s'.looked && t !in s.looked ==>
          s'.looked[t] == s.time && tx in s.txs && s.txs[tx].Issues() && t == s.txs[tx].token)
  }

  lemma TimedStays(s: Sys, s': Sys, tx: TxId, t: Token, seen: set<Token>)
    requires Timed(s, t, seen) && Moves(s, s', tx)
    ensures Timed(s', t, seen)
  {
  }

  lemma TookStays(s: Sys, s': Sys, tx: TxId, ty: TxId, user: UserId, seen: set<Token>, marks: set<Token>)
    requires Took(s, ty, user, seen, marks) && seen <= s.committed.Keys && Moves(s, s', tx) && tx != ty
    ensures Took(s', ty, user, seen, marks)
  {
  }

  /** The invariant of a transaction survives the steps of the others. */
  lemma OthersStay(s: Sys, s': Sys, tx: TxId, ty: TxId)
    requires TxsInv(s) && Moves(s, s', tx) && tx != ty && ty in s.txs && ty in s'.txs && s'.txs[ty] == s.txs[ty]
    ensures TxInv(s', ty)
  {
    assert TxInv(s, ty);
    if tx in s.txs && s.txs[tx].Issues() && s.txs[ty].Issues() { assert s.txs[tx].token != s.txs[ty].token; }
    match s.txs[ty]
    case Consumed(t, _, seen, marks) => TookStays(s, s', tx, ty, s.db.tokens[t].user, seen, marks);
    case Looking(_, t, seen) => TimedStays(s, s', tx, t, seen);
    case Marked(user, t, seen, marks) =>
      TimedStays(s, s', tx, t, seen);
      TookStays(s, s', tx, ty, user, seen, marks);
    case _ =>
  }

  /** Only this transaction changes, to one that satisfies the invariant or is over. */
  lemma TxsStay(s: Sys, s': Sys, tx: TxId)
    requires TxsInv(s) && Moves(s, s', tx) && (tx in s'.txs ==> TxInv(s', tx))
    requires forall ty :: ty != tx ==> (ty in s'.txs <==> ty in s.txs) && (ty in s.txs ==> s'.txs[ty] == s.txs[ty])
    requires tx in s'.txs && s'.txs[tx].Issues() ==>
      (tx in s.txs && s.txs[tx].Issues() && s.txs[tx].token == s'.txs[tx].token) || s'.txs[tx].token !in s.db.issued
    ensures TxsInv(s')
  {
    forall ty | ty in s'.txs ensures TxInv(s', ty) { if ty != tx { OthersStay(s, s', tx, ty); } }
    forall ty | ty in s.txs && s.txs[ty].Issues() ensures s.txs[ty].token in s.db.issued { assert TxInv(s, ty); }
  }

  /** What was retired stays as it is, and a new retirement is added to it. */
  lemma HistoryStays(s: Sys, s': Sys, tx: TxId)
    requires HistoryInv(s) && TokensInv(s) && Moves(s, s', tx) && s.retired <= s'.retired
    requires forall r :: r in s'.retired && r !in s.retired ==> RetirementInv(s', r)
    requires forall t :: t in s'.committed && t !in s.committed ==> IssuedHere(s', t)
    ensures HistoryInv(s')
  {
    forall r | r in s'.retired ensures RetirementInv(s', r) {
      if r in s.retired && r.issue {
        assert RetirementInv(s, r);
        TimedStays(s, s', tx, r.token, r.seen);
      }
    }
    forall t | t in s'.committed && s'.committed[t] > 0 ensures IssuedHere(s', t) {
      if t in s.committed {
        var r :| r in s.retired && r.issue && r.token == t;
        assert r in s'.retired;
      }
    }
  }

  lemma BeginKeepsInv(s: Sys, tx: TxId, x: Tx, issued: set<Token>)
    requires Inv(s) && tx !in s.txs && (x.Asking? || x.Drawn?)
    requires if x.Asking? then issued == s.db.issued else x.token !in s.db.issued && issued == s.db.issued + {x.token}
    ensures Inv(s.(txs := s.txs[tx := x], db := s.db.(issued := issued), time := s.time + 1))
  {
    var s' := s.(txs := s.txs[tx := x], db := s.db.(issued := issued), time := s.time + 1);
    TxsStay(s, s', tx);
    HistoryStays(s, s', tx);
  }

  lemma EndKeepsInv(s: Sys, tx: TxId)
    requires Inv(s)
    ensures Inv(End(s, tx).(time := s.time + 1))
  {
    var s' := End(s, tx).(time := s.time + 1);
    TxsStay(s, s', tx);
    HistoryStays(s, s', tx);
  }

  /** Steps that change nothing but the clocks. */
  lemma IdleKeepsInv(s: Sys, s': Sys)
    requires Inv(s) && s'.db.tokens == s.db.tokens && s'.db.issued == s.db.issued
    requires s' == s.(db := s'.db, time := s.time + 1)
    ensures Inv(s')
  {
    forall tx | tx in s'.txs ensures TxInv(s', tx) {
      assert TxInv(s, tx);
      var other := tx + 1;
      assert Moves(s, s', other);
      OthersStay(s, s', other, tx);
    }
    HistoryStays(s, s', 0);
  }

  /** The row lock is granted and the row is still unused. */
  lemma GrantKeepsInv(s: Sys, tx: TxId, t: Token, hash: Hash)
    requires Inv(s) && t !in s.lock && t in s.db.tokens && !s.db.tokens[t].used
    ensures Inv(s.(lock := s.lock[t := tx], txs := s.txs[tx := Holding(t, hash)], time := s.time + 1))
  {
    var s' := s.(lock := s.lock[t := tx], txs := s.txs[tx := Holding(t, hash)], time := s.time + 1);
    TxsStay(s, s', tx);
    HistoryStays(s, s', tx);
  }

  lemma LockTokenKeepsInv(s: Sys, tx: TxId)
    requires Inv(s)
    ensures Inv(DoLockToken(s, tx).(time := s.time + 1))
  {
    if tx !in s.txs || !s.txs[tx].Asking? || s.txs[tx].token in s.lock {
      IdleKeepsInv(s, s.(time := s.time + 1));
    } else {
      var x := s.txs[tx];
      if x.token !in s.db.tokens || s.db.tokens[x.token].used { EndKeepsInv(s, tx); }
      else { GrantKeepsInv(s, tx, x.token, x.hash); }
    }
  }

  lemma RetiringKeepsInv(s: Sys, tx: TxId, t: Token, hash: Hash)
    requires Inv(s) && tx in s.txs && s.txs[tx] == Holding(t, hash)
    ensures Inv(s.(txs := s.txs[tx := Retiring(t, hash, s.db.tokens.Keys)], time := s.time + 1))
  {
    var s' := s.(txs := s.txs[tx := Retiring(t, hash, s.db.tokens.Keys)], time := s.time + 1);
    assert TxInv(s, tx);
    TxsStay(s, s', tx);
    HistoryStays(s, s', tx);
  }

  lemma LookingKeepsInv(s: Sys, tx: TxId, user: UserId, t: Token)
    requires Inv(s) && tx in s.txs && s.txs[tx] == Drawn(user, t)
    ensures Inv(s.(txs := s.txs[tx := Looking(user, t, s.db.tokens.Keys)], looked := s.looked[t := s.time],
        time := s.time + 1))
  {
    var s' := s.(txs := s.txs[tx := Looking(user, t, s.db.tokens.Keys)], looked := s.looked[t := s.time],
        time := s.time + 1);
    assert TxInv(s, tx);
    TxsStay(s, s', tx);
    HistoryStays(s, s', tx);
  }

  lemma LookKeepsInv(s: Sys, tx: TxId)
    requires Inv(s)
    ensures Inv(DoLook(s, tx).(time := s.time + 1))
  {
    if tx in s.txs && s.txs[tx].Holding? {
      RetiringKeepsInv(s, tx, s.txs[tx].token, s.txs[tx].hash);
    } else if tx in s.txs && s.txs[tx].Drawn? {
      LookingKeepsInv(s, tx, s.txs[tx].user, s.txs[tx].token);
    } else {
      IdleKeepsInv(s, s.(time := s.time + 1));
    }
  }

  lemma TakeRowsKeepsInv(s: Sys, tx: TxId, user: UserId, seen: set<Token>, next: Tx)
    requires Inv(s) && tx in s.txs
    requires var marks := Marks(s.db, user, seen);
             match s.txs[tx]
             case Retiring(t, hash, sn) =>
               sn == seen && t in s.db.tokens && user == s.db.tokens[t].user && next == Consumed(t, hash, seen, marks)
             case Looking(u, t, sn) => sn == seen && u == user && next == Marked(user, t, seen, marks)
             case _ => false
    ensures Inv(TakeRows(s, tx, Marks(s.db, user, seen), next).(time := s.time + 1))
  {
    var marks := Marks(s.db, user, seen);
    var s' := TakeRows(s, tx, marks, next).(time := s.time + 1);
    assert TxInv(s, tx);
    if Free(s, tx, marks) {
      TakeRowsMoves(s, tx, marks, next);
      if s.txs[tx].Looking? { TimedStays(s, s', tx, s.txs[tx].token, seen); }
      TxsStay(s, s', tx);
      HistoryStays(s, s', tx);
    } else {
      IdleKeepsInv(s, s');
    }
  }

  lemma TakeRowsMoves(s: Sys, tx: TxId, marks: set<Token>, next: Tx)
    requires Free(s, tx, marks)
    ensures Moves(s, TakeRows(s, tx, marks, next).(time := s.time + 1), tx)
  {
  }

  lemma MarkKeepsInv(s: Sys, tx: TxId)
    requires Inv(s)
    ensures Inv(Apply(s, Mark(tx)))
  {
    if tx in s.txs && s.txs[tx].Retiring? && s.txs[tx].token in s.db.tokens {
      var x := s.txs[tx];
      var user := s.db.tokens[x.token].user;
      TakeRowsKeepsInv(s, tx, user, x.seen, Consumed(x.token, x.hash, x.seen, Marks(s.db, user, x.seen)));
    } else if tx in s.txs && s.txs[tx].Looking? {
      var x := s.txs[tx];
      TakeRowsKeepsInv(s, tx, x.user, x.seen, Marked(x.user, x.token, x.seen, Marks(s.db, x.user, x.seen)));
    } else {
      IdleKeepsInv(s, Apply(s, Mark(tx)));
    }
  }

  lemma CommitConsumeMoves(s: Sys, tx: TxId)
    requires Inv(s) && tx in s.txs && s.txs[tx].Consumed?
    ensures Moves(s, Apply(s, Commit(tx)), tx)
  {
    assert TxInv(s, tx);
  }

  lemma CommitConsumeTxs(s: Sys, tx: TxId)
    requires Inv(s) && tx in s.txs && s.txs[tx].Consumed?
    ensures TxsInv(Apply(s, Commit(tx)))
  {
    assert TxInv(s, tx);
    CommitConsumeMoves(s, tx);
    TxsStay(s, Apply(s, Commit(tx)), tx);
  }

  lemma CommitConsumeRetires(s: Sys, tx: TxId)
    requires Inv(s) && tx in s.txs && s.txs[tx].Consumed?
    ensures HistoryInv(Apply(s, Commit(tx)))
  {
    assert TxInv(s, tx);
    CommitConsumeMoves(s, tx);
    HistoryStays(s, Apply(s, Commit(tx)), tx);
  }

  lemma CommitConsumeWins(s: Sys, tx: TxId)
    requires Inv(s) && tx in s.txs && s.txs[tx].Consumed?
    ensures TokensInv(Apply(s, Commit(tx))) && WinsInv(Apply(s, Commit(tx)))
  {
    assert TxInv(s, tx);
    var x := s.txs[tx];
    assert x.token in Marks(s.db, s.db.tokens[x.token].user, x.seen);
  }

  lemma CommitConsumeKeepsInv(s: Sys, tx: TxId)
    requires Inv(s) && tx in s.txs && s.txs[tx].Consumed?
    ensures Inv(Apply(s, Commit(tx)))
  {
    CommitConsumeTxs(s, tx);
    CommitConsumeRetires(s, tx);
    CommitConsumeWins(s, tx);
  }

  lemma CommitIssueMoves(s: Sys, tx: TxId)
    requires Inv(s) && tx in s.txs && s.txs[tx].Marked?
    ensures Moves(s, Apply(s, Commit(tx)), tx)
  {
    assert TxInv(s, tx);
  }

  lemma CommitIssueTimed(s: Sys, tx: TxId)
    requires Inv(s) && tx in s.txs && s.txs[tx].Marked?
    ensures var r := Retirement(s.txs[tx].token, s.txs[tx].user, true, s.txs[tx].seen);
            r in Apply(s, Commit(tx)).retired && RetirementInv(Apply(s, Commit(tx)), r)
  {
    assert TxInv(s, tx);
    CommitIssueMoves(s, tx);
    TimedStays(s, Apply(s, Commit(tx)), tx, s.txs[tx].token, s.txs[tx].seen);
  }

  lemma CommitIssueKeepsInv(s: Sys, tx: TxId)
    requires Inv(s) && tx in s.txs && s.txs[tx].Marked?
    ensures Inv(Apply(s, Commit(tx)))
  {
    var s' := Apply(s, Commit(tx));
    assert TxInv(s, tx);
    CommitIssueMoves(s, tx);
    CommitIssueTimed(s, tx);
    TxsStay(s, s', tx);
    HistoryStays(s, s', tx);
  }

  /** A step that does not apply. */
  lemma NothingKeepsInv(s: Sys, step: Step)
    requires Inv(s) && Effect(s, step) == s
    ensures Inv(Apply(s, step))
  {
    IdleKeepsInv(s, s.(time := s.time + 1));
  }

  lemma CommitKeepsInv(s: Sys, tx: TxId)
    requires Inv(s)
    ensures Inv(Apply(s, Commit(tx)))
  {
    if tx !in s.txs {
      NothingKeepsInv(s, Commit(tx));
    } else if s.txs[tx].Marked? {
      CommitIssueKeepsInv(s, tx);
    } else if s.txs[tx].Consumed? {
      CommitConsumeKeepsInv(s, tx);
    } else {
      NothingKeepsInv(s, Commit(tx));
    }
  }

  lemma LockStepKeepsInv(s: Sys, tx: TxId)
    requires Inv(s)
    ensures Inv(Apply(s, LockToken(tx)))
  {
    LockTokenKeepsInv(s, tx);
  }

  lemma LookStepKeepsInv(s: Sys, tx: TxId)
    requires Inv(s)
    ensures Inv(Apply(s, Look(tx)))
  {
    LookKeepsInv(s, tx);
  }

  lemma AbortStepKeepsInv(s: Sys, tx: TxId)
    requires Inv(s)
    ensures Inv(Apply(s, Abort(tx)))
  {
    EndKeepsInv(s, tx);
  }

  lemma TickStepKeepsInv(s: Sys, secs: nat)
    requires Inv(s)
    ensures Inv(Apply(s, Step.Tick(secs)))
  {
    IdleKeepsInv(s, Apply(s, Step.Tick(secs)));
  }

  lemma BeginStepKeepsInv(s: Sys, step: Step)
    requires Inv(s) && (step.BeginConsume? || step.BeginIssue?)
    ensures Inv(Apply(s, step))
  {
    if Effect(s, step) == s {
      IdleKeepsInv(s, s.(time := s.time + 1));
    } else if step.BeginConsume? {
      BeginKeepsInv(s, step.tx, Asking(step.token, step.hash), s.db.issued);
    } else {
      BeginKeepsInv(s, step.tx, Drawn(step.user, step.token), s.db.issued + {step.token});
    }
  }

  lemma ApplyKeepsInv(s: Sys, step: Step)
    requires Inv(s)
    ensures Inv(Apply(s, step))
  {
    match step
    case Look(tx) => LookStepKeepsInv(s, tx);
    case Mark(tx) => MarkKeepsInv(s, tx);
    case LockToken(tx) => LockStepKeepsInv(s, tx);
    case Abort(tx) => AbortStepKeepsInv(s, tx);
    case Commit(tx) => CommitKeepsInv(s, tx);
    case Tick(secs) => TickStepKeepsInv(s, secs);
    case _ => BeginStepKeepsInv(s, step);
  }

  lemma StartInv(db: Db)
    requires db.tokens.Keys <= db.issued
    ensures Inv(Start(db))
  {
  }

  lemma {:induction false} RunKeepsInv(s: Sys, steps: seq<Step>)
    requires Inv(s)
    ensures Inv(Run(s, steps))
    decreases |steps|
  {
    if steps != [] {
      ApplyKeepsInv(s, steps[0]);
      RunKeepsInv(Apply(s, steps[0]), steps[1..]);
    }
  }

  /** Two submits of the same link cannot both succeed, in any interleaving of
      any number of consumes and issues. */
  lemma ConsumedAtMostOnce(db: Db, steps: seq<Step>, t: Token)
    requires db.tokens.Keys <= db.issued
    ensures Run(Start(db), steps).wins[t] <= 1
  {
    StartInv(db);
    RunKeepsInv(Start(db), steps);
  }

  // ---- which tokens are used ------------------------------------------------------------------

  /** A committed UPDATE of this user's tokens saw this one. */
  predicate SeenByRetirement(s: Sys, user: UserId, t: Token) {
    exists r :: r in s.retired && r.user == user && t in r.seen
  }

  /** A token is used exactly when it was at the start, or a committed issue or
      consume of its user saw it. */
  predicate UsedExactly(s: Sys, base: set<Token>) {
    forall t :: t in s.db.tokens ==> (s.db.tokens[t].used <==> t in base || SeenByRetirement(s, s.db.tokens[t].user, t))
  }

  /** The base speaks of tokens committed before anything still to come. */
  predicate BaseInv(s: Sys, base: set<Token>) { base <= s.committed.Keys && UsedExactly(s, base) }

  /** Rows and retirements of the step's result, when only one retirement is added. */
  lemma CommitIssueUsed(s: Sys, tx: TxId, base: set<Token>)
    requires Inv(s) && BaseInv(s, base) && tx in s.txs && s.txs[tx].Marked?
    ensures BaseInv(Apply(s, Commit(tx)), base)
  {
    var s', x := Apply(s, Commit(tx)), s.txs[tx];
    var r := Retirement(x.token, x.user, true, x.seen);
    assert TxInv(s, tx) && s'.retired == s.retired + {r};
    forall t | t in s'.db.tokens
      ensures s'.db.tokens[t].used <==> t in base || SeenByRetirement(s', s'.db.tokens[t].user, t)
    {
      if t == x.token {
        forall q | q in s'.retired ensures t !in q.seen { if q != r { assert RetirementInv(s, q); } }
      } else {
        RetiredByOneMore(s, s', r, x.marks, t);
      }
    }
  }

  /** One more retirement: the rows it marked are those of its user that it saw
      and that nobody had used before. */
  lemma RetiredByOneMore(s: Sys, s': Sys, r: Retirement, marks: set<Token>, t: Token)
    requires s'.retired == s.retired + {r} && t in s.db.tokens && t in s'.db.tokens
    requires s'.db.tokens[t].user == s.db.tokens[t].user
    requires s'.db.tokens[t].used <==> s.db.tokens[t].used || t in marks
    requires Marks(s.db, r.user, r.seen) <= marks && (t in marks ==> t in r.seen && s.db.tokens[t].user == r.user)
    ensures s'.db.tokens[t].used || s.db.tokens[t].used
       <==> s.db.tokens[t].used || (r.user == s.db.tokens[t].user && t in r.seen)
    ensures SeenByRetirement(s', s.db.tokens[t].user, t)
       <==> SeenByRetirement(s, s.db.tokens[t].user, t) || (r.user == s.db.tokens[t].user && t in r.seen)
    ensures s'.db.tokens[t].used <==> s.db.tokens[t].used || (r.user == s.db.tokens[t].user && t in r.seen)
  {
    if t in r.seen && r.user == s.db.tokens[t].user && !s.db.tokens[t].used { assert t in Marks(s.db, r.user, r.seen); }
    if SeenByRetirement(s, s.db.tokens[t].user, t) {
      var q :| q in s.retired && q.user == s.db.tokens[t].user && t in q.seen;
      assert q in s'.retired;
    }
    assert r in s'.retired;
  }

  lemma CommitConsumeUsed(s: Sys, tx: TxId, base: set<Token>)
    requires Inv(s) && BaseInv(s, base) && tx in s.txs && s.txs[tx].Consumed?
    ensures BaseInv(Apply(s, Commit(tx)), base)
  {
    var s', x := Apply(s, Commit(tx)), s.txs[tx];
    assert TxInv(s, tx);
    var r := Retirement(x.token, s.db.tokens[x.token].user, false, x.seen);
    forall t | t in s'.db.tokens
      ensures s'.db.tokens[t].used <==> t in base || SeenByRetirement(s', s'.db.tokens[t].user, t)
    {
      RetiredByOneMore(s, s', r, x.marks, t);
    }
  }

  lemma ApplyKeepsUsed(s: Sys, step: Step, base: set<Token>)
    requires Inv(s) && BaseInv(s, base)
    ensures BaseInv(Apply(s, step), base)
  {
    if step.Commit? && step.tx in s.txs && s.txs[step.tx].Marked? {
      CommitIssueUsed(s, step.tx, base);
    } else if step.Commit? && step.tx in s.txs && s.txs[step.tx].Consumed? {
      CommitConsumeUsed(s, step.tx, base);
    } else {
      var s' := Apply(s, step);
      SameRows(s, step);
      forall t | t in s'.db.tokens
        ensures s'.db.tokens[t].used <==> t in base || SeenByRetirement(s', s'.db.tokens[t].user, t)
      {
        assert SeenByRetirement(s', s'.db.tokens[t].user, t) <==> SeenByRetirement(s, s.db.tokens[t].user, t);
      }
    }
  }

  lemma SameRows(s: Sys, step: Step)
    requires !(step.Commit? && step.tx in s.txs && (s.txs[step.tx].Marked? || s.txs[step.tx].Consumed?))
    ensures var s' := Apply(s, step);
            s'.db.tokens == s.db.tokens && s'.retired == s.retired && s'.committed == s.committed
  {
  }

  function UsedIn(db: Db): set<Token> { set t | t in db.tokens && db.tokens[t].used }

  /** In every interleaving, a token is used exactly when it was at the start,
      or a committed issue or consume of its user saw it. */
  lemma {:induction false} RunKeepsUsed(s: Sys, steps: seq<Step>, base: set<Token>)
    requires Inv(s) && BaseInv(s, base)
    ensures Inv(Run(s, steps)) && BaseInv(Run(s, steps), base)
    decreases |steps|
  {
    if steps != [] {
      ApplyKeepsInv(s, steps[0]);
      ApplyKeepsUsed(s, steps[0], base);
      RunKeepsUsed(Apply(s, steps[0]), steps[1..], base);
    }
  }

  lemma UsedExactlyWhenSeen(db: Db, steps: seq<Step>)
    requires db.tokens.Keys <= db.issued
    ensures UsedExactly(Run(Start(db), steps), UsedIn(db))
  {
    StartInv(db);
    RunKeepsUsed(Start(db), steps, UsedIn(db));
  }

  // ---- two links of one user ---------------------------------------------------------------------

  /** This issue's UPDATE started after that token was committed. */
  predicate LookedAfter(s: Sys, issue: Token, t: Token) {
    issue in s.looked && t in s.committed && s.committed[t] < s.looked[issue]
  }

  /** Both links are there, belong to this active user, and have not run out. */
  predicate Alive(db: Db, user: UserId, t: Token) {
    && WellFormed(t) && t in db.tokens && db.tokens[t].user == user && db.tokens[t].expires > db.now
    && user in db.users && db.users[user].active
  }

  /** In every interleaving in which this user's tokens were touched by these two
      issues only: both links are usable exactly when neither issue's UPDATE
      started after the other's commit. */
  lemma BothUsableExactly(db: Db, steps: seq<Step>, user: UserId, t: Token, u: Token)
    requires db.tokens.Keys <= db.issued && t != u && t !in db.issued && u !in db.issued
    requires var s := Run(Start(db), steps);
             && Alive(s.db, user, t) && Alive(s.db, user, u)
             && forall r :: r in s.retired && r.user == user ==> r.issue && (r.token == t || r.token == u)
    ensures var s := Run(Start(db), steps);
            Usable(s.db, t) && Usable(s.db, u) <==> !LookedAfter(s, t, u) && !LookedAfter(s, u, t)
  {
    StartInv(db);
    RunKeepsUsed(Start(db), steps, UsedIn(db));
    RunDatesTokens(Start(db), steps, db.tokens.Keys);
    var s := Run(Start(db), steps);
    UsedByTheOther(s, UsedIn(db), user, t, u);
    UsedByTheOther(s, UsedIn(db), user, u, t);
  }

  /** Tokens from before the run are the only ones dated before it. */
  predicate OldAreOld(s: Sys, early: set<Token>) {
    forall t :: t in s.committed && s.committed[t] == 0 ==> t in early
  }

  lemma {:induction false} RunDatesTokens(s: Sys, steps: seq<Step>, early: set<Token>)
    requires Inv(s) && OldAreOld(s, early)
    ensures OldAreOld(Run(s, steps), early)
    decreases |steps|
  {
    if steps != [] {
      ApplyKeepsInv(s, steps[0]);
      StepDatesTokens(s, steps[0], early);
      RunDatesTokens(Apply(s, steps[0]), steps[1..], early);
    }
  }

  lemma StepDatesTokens(s: Sys, step: Step, early: set<Token>)
    requires s.time > 0 && OldAreOld(s, early)
    ensures OldAreOld(Apply(s, step), early)
  {
  }

  lemma UsedByTheOther(s: Sys, base: set<Token>, user: UserId, t: Token, u: Token)
    requires Inv(s) && UsedExactly(s, base) && t !in base && t in s.db.tokens && s.db.tokens[t].user == user
    requires u in s.committed && s.committed[u] > 0 && u in s.db.tokens && s.db.tokens[u].user == user
    requires forall r :: r in s.retired && r.user == user ==> r.issue && (r.token == t || r.token == u)
    ensures s.db.tokens[t].used <==> LookedAfter(s, u, t)
  {
    if s.db.tokens[t].used {
      var r :| r in s.retired && r.user == user && t in r.seen;
      assert RetirementInv(s, r);
      if r.token == t { OwnIssueDoesNotSeeIt(s, r); }
    }
    if LookedAfter(s, u, t) {
      assert IssuedHere(s, u);
      var r :| r in s.retired && r.issue && r.token == u;
      assert RetirementInv(s, r) && t in r.seen && r.user == user;
    }
  }

  /** An issue looks before it commits. */
  lemma OwnIssueDoesNotSeeIt(s: Sys, r: Retirement)
    requires Inv(s) && r in s.retired && r.issue && r.token in s.db.tokens
    ensures r.token !in r.seen
  {
    assert RetirementInv(s, r);
  }

  // ---- issues that do not overlap -------------------------------------------------------------------

  predicate IssuesFor(s: Sys, tx: TxId, user: UserId) { tx in s.txs && s.txs[tx].Issues() && s.txs[tx].user == user }

  /** An issue for this user begins only when no other one is in progress. */
  predicate InTurn(s: Sys, step: Step, user: UserId) {
    step.BeginIssue? && step.user == user ==> forall tx :: tx in s.txs ==> !IssuesFor(s, tx, user)
  }

  predicate TakesTurns(s: Sys, steps: seq<Step>, user: UserId)
    decreases |steps|
  {
    steps == [] || (InTurn(s, steps[0], user) && TakesTurns(Apply(s, steps[0]), steps[1..], user))
  }

  predicate Unused(db: Db, user: UserId, t: Token) { t in db.tokens && db.tokens[t].user == user && !db.tokens[t].used }

  ghost predicate OneUnused(db: Db, user: UserId) {
    forall t, u :: Unused(db, user, t) && Unused(db, user, u) ==> t == u
  }

  /** The issue in progress, if its UPDATE has started, has seen every unused token. */
  ghost predicate SawAll(s: Sys, tx: TxId, user: UserId) {
    IssuesFor(s, tx, user) && s.txs[tx].Sees() ==> forall t :: Unused(s.db, user, t) ==> t in s.txs[tx].seen
  }

  ghost predicate TurnInv(s: Sys, user: UserId) {
    && OneUnused(s.db, user)
    && (forall tx, ty :: IssuesFor(s, tx, user) && IssuesFor(s, ty, user) ==> tx == ty)
    && (forall tx :: tx in s.txs ==> SawAll(s, tx, user))
  }

  lemma CommitInTurn(s: Sys, tx: TxId, user: UserId)
    requires Inv(s) && TurnInv(s, user) && IssuesFor(s, tx, user) && s.txs[tx].Marked?
    ensures TurnInv(Apply(s, Commit(tx)), user)
  {
    var s', x := Apply(s, Commit(tx)), s.txs[tx];
    assert TxInv(s, tx) && SawAll(s, tx, user);
    forall k | Unused(s.db, user, k) ensures k in x.marks { assert k in Marks(s.db, user, x.seen); }
    forall ty | ty in s'.txs ensures !IssuesFor(s', ty, user) {
      assert IssuesFor(s', ty, user) ==> IssuesFor(s, ty, user) && ty != tx;
    }
  }

  /** A step that leaves this user's unused tokens and issues no more than they were. */
  lemma QuietTurn(s: Sys, s': Sys, user: UserId)
    requires TurnInv(s, user)
    requires forall t :: Unused(s'.db, user, t) ==> Unused(s.db, user, t)
    requires forall tx :: IssuesFor(s', tx, user) ==> IssuesFor(s, tx, user)
    requires forall tx :: IssuesFor(s', tx, user) && s'.txs[tx].Sees() ==>
      s'.txs[tx].seen == s.db.tokens.Keys || (s.txs[tx].Sees() && s'.txs[tx].seen == s.txs[tx].seen)
    ensures TurnInv(s', user)
  {
    forall tx | tx in s'.txs ensures SawAll(s', tx, user) {
      if IssuesFor(s', tx, user) { assert SawAll(s, tx, user); }
    }
  }

  lemma CommitAddsNoneForOthers(s: Sys, tx: TxId, user: UserId, t: Token)
    requires Inv(s) && !(IssuesFor(s, tx, user) && s.txs[tx].Marked?) && Unused(Apply(s, Commit(tx)).db, user, t)
    ensures Unused(s.db, user, t)
  {
    assert tx in s.txs ==> TxInv(s, tx);
  }

  lemma CommitForOthers(s: Sys, tx: TxId, user: UserId)
    requires Inv(s) && TurnInv(s, user) && !(IssuesFor(s, tx, user) && s.txs[tx].Marked?)
    ensures TurnInv(Apply(s, Commit(tx)), user)
  {
    forall t | Unused(Apply(s, Commit(tx)).db, user, t) ensures Unused(s.db, user, t) {
      CommitAddsNoneForOthers(s, tx, user, t);
    }
    QuietTurn(s, Apply(s, Commit(tx)), user);
  }

  lemma BeginInTurn(s: Sys, tx: TxId, user: UserId, whom: UserId, t: Token)
    requires TurnInv(s, user) && InTurn(s, BeginIssue(tx, whom, t), user)
    ensures TurnInv(Apply(s, BeginIssue(tx, whom, t)), user)
  {
    var s' := Apply(s, BeginIssue(tx, whom, t));
    assert forall k :: Unused(s'.db, user, k) <==> Unused(s.db, user, k);
    if s'.txs == s.txs || whom != user {
      QuietTurn(s, s', user);
    } else {
      assert forall ty :: IssuesFor(s', ty, user) ==> ty == tx;
    }
  }

  lemma LookInTurn(s: Sys, tx: TxId, user: UserId)
    requires TurnInv(s, user)
    ensures TurnInv(Apply(s, Look(tx)), user)
  {
    QuietTurn(s, Apply(s, Look(tx)), user);
  }

  lemma MarkInTurn(s: Sys, tx: TxId, user: UserId)
    requires TurnInv(s, user)
    ensures TurnInv(Apply(s, Mark(tx)), user)
  {
    QuietTurn(s, Apply(s, Mark(tx)), user);
  }

  lemma AbortInTurn(s: Sys, tx: TxId, user: UserId)
    requires TurnInv(s, user)
    ensures TurnInv(Apply(s, Abort(tx)), user)
  {
    QuietTurn(s, Apply(s, Abort(tx)), user);
  }

  lemma LockInTurn(s: Sys, tx: TxId, user: UserId)
    requires TurnInv(s, user)
    ensures TurnInv(Apply(s, LockToken(tx)), user)
  {
    QuietTurn(s, Apply(s, LockToken(tx)), user);
  }

  lemma AskInTurn(s: Sys, tx: TxId, t: Token, hash: Hash, user: UserId)
    requires TurnInv(s, user)
    ensures TurnInv(Apply(s, BeginConsume(tx, t, hash)), user)
  {
    QuietTurn(s, Apply(s, BeginConsume(tx, t, hash)), user);
  }

  lemma TickInTurn(s: Sys, secs: nat, user: UserId)
    requires TurnInv(s, user)
    ensures TurnInv(Apply(s, Step.Tick(secs)), user)
  {
    QuietTurn(s, Apply(s, Step.Tick(secs)), user);
  }

  lemma CommitStepInTurn(s: Sys, tx: TxId, user: UserId)
    requires Inv(s) && TurnInv(s, user)
    ensures TurnInv(Apply(s, Commit(tx)), user)
  {
    if IssuesFor(s, tx, user) && s.txs[tx].Marked? { CommitInTurn(s, tx, user); } else { CommitForOthers(s, tx, user); }
  }

  lemma ApplyKeepsTurn(s: Sys, step: Step, user: UserId)
    requires Inv(s) && TurnInv(s, user) && InTurn(s, step, user)
    ensures TurnInv(Apply(s, step), user)
  {
    match step
    case BeginIssue(tx, whom, t) => BeginInTurn(s, tx, user, whom, t);
    case Commit(tx) => CommitStepInTurn(s, tx, user);
    case Look(tx) => LookInTurn(s, tx, user);
    case Mark(tx) => MarkInTurn(s, tx, user);
    case Abort(tx) => AbortInTurn(s, tx, user);
    case LockToken(tx) => LockInTurn(s, tx, user);
    case BeginConsume(tx, t, hash) => AskInTurn(s, tx, t, hash, user);
    case Tick(secs) => TickInTurn(s, secs, user);
  }

  lemma {:induction false} RunKeepsTurn(s: Sys, steps: seq<Step>, user: UserId)
    requires Inv(s) && TurnInv(s, user) && TakesTurns(s, steps, user)
    ensures TurnInv(Run(s, steps), user)
    decreases |steps|
  {
    if steps != [] {
      ApplyKeepsInv(s, steps[0]);
      ApplyKeepsTurn(s, steps[0], user);
      RunKeepsTurn(Apply(s, steps[0]), steps[1..], user);
    }
  }

  /** As long as one user's issues do not overlap, whatever other users' issues and
      any consumes do, the user has at most one usable link. */
  lemma OneLinkUnlessIssuesOverlap(db: Db, steps: seq<Step>, user: UserId, t: Token, u: Token)
    requires db.tokens.Keys <= db.issued && OneUnused(db, user) && TakesTurns(Start(db), steps, user)
    requires var end := Run(Start(db), steps).db;
             Usable(end, t) && Usable(end, u) && end.tokens[t].user == end.tokens[u].user == user
    ensures t == u
  {
    StartInv(db);
    RunKeepsTurn(Start(db), steps, user);
    var end := Run(Start(db), steps).db;
    assert Unused(end, user, t) && Unused(end, user, u);
  }

  // ---- an overlap, step by step ---------------------------------------------------------------------------

  lemma RunCons(s: Sys, step: Step, rest: seq<Step>)
    ensures Run(s, [step] + rest) == Run(Apply(s, step), rest)
  {
    assert ([step] + rest)[1..] == rest;
  }

  /** x and y issue a link each for the same user; both UPDATEs start before
      either commits, and y's gets its rows when x is done. */
  function Overlap(x: TxId, y: TxId, user: UserId, t: Token, u: Token): seq<Step> {
    [BeginIssue(x, user, t)] + ([BeginIssue(y, user, u)] + ([Look(x)] + ([Look(y)] + FinishBoth(x, y))))
  }

  function FinishBoth(x: TxId, y: TxId): seq<Step> { [Mark(x)] + ([Commit(x)] + ([Mark(y)] + ([Commit(y)] + []))) }

  lemma FourSteps(s: Sys, a: Step, b: Step, c: Step, d: Step, rest: seq<Step>)
    ensures Run(s, [a] + ([b] + ([c] + ([d] + rest)))) == Run(Apply(Apply(Apply(Apply(s, a), b), c), d), rest)
  {
    RunCons(s, a, [b] + ([c] + ([d] + rest)));
    RunCons(Apply(s, a), b, [c] + ([d] + rest));
    RunCons(Apply(Apply(s, a), b), c, [d] + rest);
    RunCons(Apply(Apply(Apply(s, a), b), c), d, rest);
  }

  /** Both have looked at the same tokens. */
  lemma BothLook(db: Db, x: TxId, y: TxId, user: UserId, t: Token, u: Token)
    requires x != y && user in db.users && t != u && t !in db.issued && u !in db.issued
    ensures var s := Apply(Apply(Apply(Apply(Start(db), BeginIssue(x, user, t)), BeginIssue(y, user, u)), Look(x)),
        Look(y));
            && s.db == db.(issued := db.issued + {t} + {u}) && s.lock == map[]
            && s.txs == map[x := Looking(user, t, db.tokens.Keys), y := Looking(user, u, db.tokens.Keys)]
  {
    var s1 := Apply(Start(db), BeginIssue(x, user, t));
    var s2 := Apply(s1, BeginIssue(y, user, u));
    assert s2.txs == map[x := Drawn(user, t), y := Drawn(user, u)];
    var s3 := Apply(s2, Look(x));
    assert s3.txs == map[x := Looking(user, t, db.tokens.Keys), y := Drawn(user, u)];
  }

  lemma MarkAlone(s: Sys, x: TxId, user: UserId, t: Token, seen: set<Token>)
    requires s.lock == map[] && x in s.txs && s.txs[x] == Looking(user, t, seen)
    ensures var s', marks := Apply(s, Mark(x)), Marks(s.db, user, seen);
            && s'.txs == s.txs[x := Marked(user, t, seen, marks)] && s'.lock == LockAll(map[], marks, x)
                  && s'.db == s.db
  {
  }

  lemma CommitAlone(s: Sys, x: TxId, user: UserId, t: Token, seen: set<Token>, marks: set<Token>)
    requires x in s.txs && s.txs[x] == Marked(user, t, seen, marks) && s.lock == LockAll(map[], marks, x)
    ensures var s' := Apply(s, Commit(x));
            && s'.txs == s.txs - {x} && s'.lock == map[] && s'.db.users == s.db.users && s'.db.now == s.db.now
            && t in s'.db.tokens && s'.db.tokens[t] == Row(user, s.db.now + RESET_TTL_SECS, false)
            && (forall k :: k != t && k in s.db.tokens && k in Purged(s.db.tokens, s.db.now) && k !in marks ==>
                  (k in s'.db.tokens && s'.db.tokens[k] == s.db.tokens[k]))
  {
    assert forall k :: k in s.lock ==> s.lock[k] == x;
  }

  /** An issue that has looked finishes with nobody in its way. */
  lemma Finishes(s: Sys, x: TxId, user: UserId, t: Token, seen: set<Token>)
    requires s.lock == map[] && x in s.txs && s.txs[x] == Looking(user, t, seen)
    ensures var s' := Apply(Apply(s, Mark(x)), Commit(x));
            && s'.txs == s.txs - {x} && s'.lock == map[] && s'.db.users == s.db.users && s'.db.now == s.db.now
            && t in s'.db.tokens && s'.db.tokens[t] == Row(user, s.db.now + RESET_TTL_SECS, false)
            && (forall k :: k != t && k in s.db.tokens && k in Purged(s.db.tokens, s.db.now) && k !in seen ==>
                  (k in s'.db.tokens && s'.db.tokens[k] == s.db.tokens[k]))
  {
    var marks := Marks(s.db, user, seen);
    MarkAlone(s, x, user, t, seen);
    CommitAlone(Apply(s, Mark(x)), x, user, t, seen, marks);
    assert (s.txs[x := Marked(user, t, seen, marks)]) - {x} == s.txs - {x};
  }

  /** Two issues for one user whose UPDATEs both start before either commits leave
      two usable links, whatever tokens there were before. */
  lemma OverlappingIssuesLeaveTwo(db: Db, x: TxId, y: TxId, user: UserId, t: Token, u: Token)
    requires x != y && user in db.users && db.users[user].active && db.tokens.Keys <= db.issued
    requires t != u && WellFormed(t) && WellFormed(u) && t !in db.issued && u !in db.issued
    ensures var db' := Run(Start(db), Overlap(x, y, user, t, u)).db;
            Usable(db', t) && Usable(db', u) && db'.tokens[t].user == db'.tokens[u].user == user
  {
    var seen := db.tokens.Keys;
    var s4 := Apply(Apply(Apply(Apply(Start(db), BeginIssue(x, user, t)), BeginIssue(y, user, u)), Look(x)), Look(y));
    FourSteps(Start(db), BeginIssue(x, user, t), BeginIssue(y, user, u), Look(x), Look(y), FinishBoth(x, y));
    BothLook(db, x, y, user, t, u);
    Finishes(s4, x, user, t, seen);
    var s6 := Apply(Apply(s4, Mark(x)), Commit(x));
    assert s6.txs == map[y := Looking(user, u, seen)];
    FourSteps(s4, Mark(x), Commit(x), Mark(y), Commit(y), []);
    // The second UPDATE did not see the first link, so it leaves it alone.
    Finishes(s6, y, user, u, seen);
  }

  // ---- one transaction on its own --------------------------------------------------------------

  function ConsumeAlone(tx: TxId, t: Token, hash: Hash): seq<Step> {
    [BeginConsume(tx, t, hash), LockToken(tx), Look(tx), Mark(tx), Commit(tx)]
  }

  function IssueAlone(tx: TxId, user: UserId, t: Token): seq<Step> {
    [BeginIssue(tx, user, t), Look(tx), Mark(tx), Commit(tx)]
  }

  /** Marking the unused tokens of a user retires them. */
  lemma MarkingRetires(db: Db, kept: map<Token, Row>, user: UserId)
    requires forall k :: k in kept ==> k in db.tokens && kept[k] == db.tokens[k]
    ensures Used(kept, Marks(db, user, db.tokens.Keys)) == Retired(kept, user)
  {
    var marked, retired := Used(kept, Marks(db, user, db.tokens.Keys)), Retired(kept, user);
    forall k | k in kept ensures marked[k] == retired[k] { }
  }

  lemma OwnLocksOnly(tx: TxId, marks: set<Token>)
    ensures var lock := LockAll(map[], marks, tx); (map t | t in lock && lock[t] != tx :: lock[t]) == map[]
  {
  }

  lemma IssueCommitsAlone(s: Sys, tx: TxId, user: UserId, t: Token, marks: set<Token>)
    requires marks == Marks(s.db, user, s.db.tokens.Keys) && s.lock == LockAll(map[], marks, tx)
    requires s.txs == map[tx := Marked(user, t, s.db.tokens.Keys, marks)]
    ensures var s' := Apply(s, Commit(tx));
            && s'.txs == map[] && s'.lock == map[]
            && s'.db == s.db.(tokens := Retired(Purged(s.db.tokens, s.db.now), user)
                                          [t := Row(user, s.db.now + RESET_TTL_SECS, false)])
  {
    assert PurgedFree(s, tx) == Purged(s.db.tokens, s.db.now);
    MarkingRetires(s.db, Purged(s.db.tokens, s.db.now), user);
    OwnLocksOnly(tx, marks);
  }

  lemma IssueMarksAlone(db: Db, tx: TxId, user: UserId, t: Token)
    requires user in db.users && t !in db.issued
    ensures var s := Apply(Apply(Apply(Start(db), BeginIssue(tx, user, t)), Look(tx)), Mark(tx));
            var marks := Marks(s.db, user, s.db.tokens.Keys);
            && s.db == db.(issued := db.issued + {t}) && s.lock == LockAll(map[], marks, tx)
            && s.txs == map[tx := Marked(user, t, s.db.tokens.Keys, marks)]
  {
    var s1 := Apply(Start(db), BeginIssue(tx, user, t));
    var s2 := Apply(s1, Look(tx));
    assert s2.txs == map[tx := Looking(user, t, db.tokens.Keys)] && s2.db == db.(issued := db.issued + {t});
    assert s2.lock == map[];
  }

  /** With nobody else around, issuing a link is exactly the serial operation. */
  lemma IssueAloneIsSerial(db: Db, tx: TxId, user: UserId, t: Token)
    requires user in db.users && t !in db.issued
    ensures var s := Run(Start(db), IssueAlone(tx, user, t));
            s.db == AfterIssue(db, user, t) && s.txs == map[] && s.lock == map[]
  {
    var s := Start(db);
    FourSteps(s, BeginIssue(tx, user, t), Look(tx), Mark(tx), Commit(tx), []);
    assert IssueAlone(tx, user, t) == [BeginIssue(tx, user, t)] + ([Look(tx)] + ([Mark(tx)] + ([Commit(tx)] + [])));
    IssueMarksAlone(db, tx, user, t);
    var s3 := Apply(Apply(Apply(s, BeginIssue(tx, user, t)), Look(tx)), Mark(tx));
    IssueCommitsAlone(s3, tx, user, t, Marks(s3.db, user, s3.db.tokens.Keys));
  }

  lemma ConsumeCommitsAlone(s: Sys, tx: TxId, t: Token, hash: Hash, marks: set<Token>)
    requires Usable(s.db, t) && marks == Marks(s.db, s.db.tokens[t].user, s.db.tokens.Keys)
    requires s.lock == LockAll(map[], marks, tx)
    requires s.txs == map[tx := Consumed(t, hash, s.db.tokens.Keys, marks)]
    ensures var s' := Apply(s, Commit(tx));
            && s'.txs == map[] && s'.lock == map[]
            && s'.db == AfterConsume(s.db, t, hash) && s'.wins == s.wins + multiset{t}
  {
    MarkingRetires(s.db, s.db.tokens, s.db.tokens[t].user);
    OwnLocksOnly(tx, marks);
  }

  lemma ConsumeMarksAlone(db: Db, tx: TxId, t: Token, hash: Hash)
    requires Usable(db, t)
    ensures var s2 := Apply(Apply(Start(db), BeginConsume(tx, t, hash)), LockToken(tx));
            var s := Apply(Apply(s2, Look(tx)), Mark(tx));
            var marks := Marks(db, db.tokens[t].user, db.tokens.Keys);
            && s.db == db && s.lock == LockAll(map[], marks, tx) && s.wins == multiset{}
            && s.txs == map[tx := Consumed(t, hash, db.tokens.Keys, marks)]
  {
    var s2 := Apply(Apply(Start(db), BeginConsume(tx, t, hash)), LockToken(tx));
    assert s2.txs == map[tx := Holding(t, hash)] && s2.lock == map[t := tx];
    var s3 := Apply(s2, Look(tx));
    assert s3.txs == map[tx := Retiring(t, hash, db.tokens.Keys)] && s3.lock == map[t := tx];
    assert t in Marks(db, db.tokens[t].user, db.tokens.Keys);
  }

  /** And so is using one. */
  lemma ConsumeAloneIsSerial(db: Db, tx: TxId, t: Token, hash: Hash)
    requires Usable(db, t)
    ensures var s := Run(Start(db), ConsumeAlone(tx, t, hash));
            s.db == AfterConsume(db, t, hash) && s.txs == map[] && s.lock == map[] && s.wins == multiset{t}
  {
    var s := Start(db);
    FourSteps(s, BeginConsume(tx, t, hash), LockToken(tx), Look(tx), Mark(tx), [Commit(tx)] + []);
    assert ConsumeAlone(tx, t, hash)
        == [BeginConsume(tx, t, hash)] + ([LockToken(tx)] + ([Look(tx)] + ([Mark(tx)] + ([Commit(tx)] + []))));
    ConsumeMarksAlone(db, tx, t, hash);
    var s4 := Apply(Apply(Apply(Apply(s, BeginConsume(tx, t, hash)), LockToken(tx)), Look(tx)), Mark(tx));
    var marks := Marks(db, db.tokens[t].user, db.tokens.Keys);
    ConsumeCommitsAlone(s4, tx, t, hash, marks);
    RunCons(s4, Commit(tx), []);
  }
}
