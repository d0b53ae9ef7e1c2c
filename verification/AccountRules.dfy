/**
 What a committed account change proves: whoever wrote a row had the right to,
 and wrote exactly what was asked for.  The rules are spelt out here and hold
 over every interleaving.
 */
module AccountRules {
  import opened Text
  import opened PortalAccounts

  predicate HasKey(c: Schema, role: RoleId, key: string) { role in c.roles && c.roles[role] == key }

  predicate SameAddress(a: string, b: string) { Lower(a) == Lower(b) }

  /** What the request may be carried out on. */
  predicate MayRun(c: Schema, req: Request, cur: User) {
    match req
    case ChangeOwnPassword(_, current, _) => cur.active && cur.hash == current
    case SetPassword(_, _) => true
    case UpdateViewer(_, email, _, mayChangeEmail, hasGrant) =>
      HasKey(c, cur.role, "client_viewer") && hasGrant && (SameAddress(cur.email, email) || mayChangeEmail)
    case UpdateUser(id, _, role, active, actor) =>
      && (id == actor ==> active)
      && (id == actor && HasKey(c, cur.role, "super_admin") ==> HasKey(c, role, "super_admin"))
  }

  /** The row asked for: what the request names, everything else as it was, and
      a version higher by one exactly when password or address changed hands. */
  predicate AskedFor(req: Request, cur: User, next: User) {
    match req
    case ChangeOwnPassword(_, _, hash) =>
      next.hash == hash && next.version == cur.version + 1 &&
      next.role == cur.role && next.active == cur.active && next.email == cur.email
    case SetPassword(_, hash) =>
      next.hash == hash && next.version == cur.version + 1 &&
      next.role == cur.role && next.active == cur.active && next.email == cur.email
    case UpdateViewer(_, email, active, _, _) =>
      next.email == email && next.active == active && next.role == cur.role && next.hash == cur.hash &&
      next.version == cur.version + (if SameAddress(cur.email, email) then 0 else 1)
    case UpdateUser(_, email, role, active, _) =>
      next.email == email && next.active == active && next.role == role && next.hash == cur.hash &&
      next.version == cur.version + (if SameAddress(cur.email, email) then 0 else 1)
  }

  predicate KnownRole(c: Schema, req: Request) { req.UpdateUser? ==> req.role in c.roles }

  /** The change from `cur` to `next` is one this request may make. */
  predicate Earned(c: Schema, req: Request, cur: User, next: User) {
    MayRun(c, req, cur) && KnownRole(c, req) && AskedFor(req, cur, next)
  }

  // ---- over every interleaving ---------------------------------------------------

  predicate Checked(c: Schema, t: Tx) {
    && (t.Passed? || t.Updated? ==> MayRun(c, t.req, t.cur))
    && (t.Updated? ==> KnownRole(c, t.req))
  }

  /** What the first statement of each request saw, or still waits for. */
  predicate Read(t: Tx) {
    && (t.HoldsAll? && t.req.ChangeOwnPassword? ==> t.cur.active)
    && (t.HoldsUser? ==> t.req.JoinsRoles())
  }

  /** Every transaction in progress was begun by a step of the run, with this
      request, and is past its tests only if they hold. */
  predicate Begun(c: Schema, done: seq<Step>, s: State) {
    forall tx :: tx in s.txs ==>
      Begin(tx, s.txs[tx].req) in done && Checked(c, s.txs[tx]) && Read(s.txs[tx])
  }

  predicate Inv(c: Schema, done: seq<Step>, s: State) { Locked(c, s) && Begun(c, done, s) }

  lemma VerdictMeansMay(c: Schema, users: map<UserId, User>, req: Request, cur: User)
    requires Verdict(c, users, req, cur).Committed? && (req.ChangeOwnPassword? ==> cur.active)
    ensures MayRun(c, req, cur)
  {
  }

  lemma NewRowIsAskedFor(req: Request, cur: User)
    ensures AskedFor(req, cur, NewRow(req, cur))
  {
  }

  lemma CheckKeepsBegun(c: Schema, done: seq<Step>, s: State, tx: TxId)
    requires Begun(c, done, s)
    ensures Begun(c, done, DoCheck(c, s, tx))
  {
    if tx in s.txs && s.txs[tx].HoldsAll? {
      var t := s.txs[tx];
      assert Read(t);
      if Verdict(c, s.users, t.req, t.cur).Committed? { VerdictMeansMay(c, s.users, t.req, t.cur); }
    }
  }

  lemma LocksKeepBegun(c: Schema, done: seq<Step>, s: State, tx: TxId)
    requires Inv(c, done, s)
    ensures Begun(c, done, DoLockUser(c, s, tx)) && Begun(c, done, DoLockRole(s, tx))
  {
    assert tx in s.txs ==> Owns(c, s, tx) && Begin(tx, s.txs[tx].req) in done;
  }

  lemma BeginKeepsBegun(c: Schema, done: seq<Step>, s: State, tx: TxId, req: Request)
    requires Begun(c, done, s) && Begin(tx, req) in done
    ensures Begun(c, done, DoBegin(s, tx, req))
  {
  }

  lemma EndsKeepBegun(c: Schema, done: seq<Step>, s: State, tx: TxId)
    requires Begun(c, done, s)
    ensures Begun(c, done, DoWrite(c, s, tx)) && Begun(c, done, DoCommit(s, tx))
  {
  }

  lemma MoreDone(c: Schema, done: seq<Step>, step: Step, s: State)
    requires Begun(c, done, s)
    ensures Begun(c, done + [step], s)
  {
    forall tx | tx in s.txs ensures Begin(tx, s.txs[tx].req) in done + [step] {
      assert Begin(tx, s.txs[tx].req) in done;
    }
  }

  lemma StepKeepsBegun(c: Schema, done: seq<Step>, s: State, step: Step)
    requires Inv(c, done, s)
    ensures Begun(c, done + [step], Apply(c, s, step))
  {
    MoreDone(c, done, step, s);
    match step
    case Write(tx) => EndsKeepBegun(c, done + [step], s, tx);
    case Commit(tx) => EndsKeepBegun(c, done + [step], s, tx);
    case Check(tx) => CheckKeepsBegun(c, done + [step], s, tx);
    case LockUser(tx) => LocksKeepBegun(c, done + [step], s, tx);
    case LockRole(tx) => LocksKeepBegun(c, done + [step], s, tx);
    case Begin(tx, req) => BeginKeepsBegun(c, done + [step], s, tx, req);
    case _ =>
  }

  lemma RunSnoc(c: Schema, s: State, steps: seq<Step>, step: Step)
    ensures Run(c, s, steps + [step]) == Apply(c, Run(c, s, steps), step)
  {
    RunConcat(c, s, steps, [step]);
    RunCons(c, Run(c, s, steps), step, []);
    assert [step] + [] == [step];
  }

  lemma {:induction false} RunKeepsBegun(c: Schema, users: map<UserId, User>, steps: seq<Step>)
    ensures Inv(c, steps, Run(c, Start(users), steps))
    decreases |steps|
  {
    RunKeepsLocked(c, Start(users), steps);
    if steps != [] {
      var front, last := steps[..|steps| - 1], steps[|steps| - 1];
      RunKeepsBegun(c, users, front);
      StepKeepsBegun(c, front, Run(c, Start(users), front), last);
      RunSnoc(c, Start(users), front, last);
      assert front + [last] == steps;
    }
  }

  /** This step commits that transaction, begun earlier with this request, and
      the change it makes is earned. */
  predicate CommitsEarned(c: Schema, users: map<UserId, User>, steps: seq<Step>, step: Step, tx: TxId, req: Request) {
    var s := Run(c, Start(users), steps);
    var s' := Apply(c, s, step);
    && step == Commit(tx) && Begin(tx, req) in steps
    && req.id in s.users && req.id in s'.users && Earned(c, req, s.users[req.id], s'.users[req.id])
    && s' == s.(users := s.users[req.id := s'.users[req.id]], userLock := s'.userLock, roleLock := s'.roleLock,
                txs := s.txs - {tx}, outcomes := s.outcomes[tx := Committed])
  }

  lemma CommitIsEarned(c: Schema, users: map<UserId, User>, steps: seq<Step>, tx: TxId)
    requires tx in Run(c, Start(users), steps).txs && Run(c, Start(users), steps).txs[tx].Updated?
    ensures CommitsEarned(c, users, steps, Commit(tx), tx, Run(c, Start(users), steps).txs[tx].req)
  {
    var s := Run(c, Start(users), steps);
    var t := s.txs[tx];
    RunKeepsBegun(c, users, steps);
    assert Owns(c, s, tx) && Checked(c, t);
    NewRowIsAskedFor(t.req, t.cur);
  }

  /** In any interleaving a row only ever changes by a committing transaction
      that had the right to, into the row it was asked for. */
  lemma RowsChangeByRight(c: Schema, users: map<UserId, User>, steps: seq<Step>, step: Step, id: UserId)
    requires id in Run(c, Start(users), steps).users
    ensures var s := Run(c, Start(users), steps);
            var s' := Apply(c, s, step);
            && id in s'.users
            && (s'.users[id] == s.users[id]
                || exists tx: TxId, req: Request :: req.id == id && CommitsEarned(c, users, steps, step, tx, req))
  {
    var s := Run(c, Start(users), steps);
    if step.Commit? && step.tx in s.txs && s.txs[step.tx].Updated? {
      CommitIsEarned(c, users, steps, step.tx);
    }
  }

  /** A transaction ends as Committed only by such a step. */
  lemma {:induction false} CommittedMeansEarned(c: Schema, users: map<UserId, User>, steps: seq<Step>, tx: TxId)
    returns (k: nat, req: Request)
    requires tx in Run(c, Start(users), steps).outcomes && Run(c, Start(users), steps).outcomes[tx] == Committed
    ensures k < |steps| && CommitsEarned(c, users, steps[..k], steps[k], tx, req)
    decreases |steps|
  {
    var n := |steps| - 1;
    var front, last := steps[..n], steps[n];
    var s := Run(c, Start(users), front);
    assert front + [last] == steps;
    RunSnoc(c, Start(users), front, last);
    if tx in s.outcomes && s.outcomes[tx] == Committed {
      k, req := CommittedMeansEarned(c, users, front, tx);
      assert steps[..k] == front[..k] && steps[k] == front[k];
    } else {
      OnlyCommitCommits(c, s, last, tx);
      CommitIsEarned(c, users, front, tx);
      k, req := n, s.txs[tx].req;
    }
  }

  lemma OnlyCommitCommits(c: Schema, s: State, step: Step, tx: TxId)
    requires !(tx in s.outcomes && s.outcomes[tx] == Committed)
    requires var s' := Apply(c, s, step); tx in s'.outcomes && s'.outcomes[tx] == Committed
    ensures step == Commit(tx) && tx in s.txs && s.txs[tx].Updated?
  {
  }

  // ---- and nothing else is refused --------------------------------------------------

  /** The user is an active super_admin, and nobody else is. */
  predicate OnlySuper(c: Schema, users: map<UserId, User>, id: UserId) {
    && id in users && users[id].active && HasKey(c, users[id].role, "super_admin")
    && forall other :: other in users && other != id ==>
         !(users[other].active && HasKey(c, users[other].role, "super_admin"))
  }

  predicate TakesSuperAway(c: Schema, req: Request) {
    req.UpdateUser? && !(req.active && HasKey(c, req.role, "super_admin"))
  }

  lemma NoOthersExactly(c: Schema, users: map<UserId, User>, id: UserId)
    requires id in users && c.ActiveSuper(users[id])
    ensures |ActiveSupers(c, users) - {id}| == 0 <==> OnlySuper(c, users, id)
  {
    var others := ActiveSupers(c, users) - {id};
    if !OnlySuper(c, users, id) {
      var other :| other in users && other != id && users[other].active && HasKey(c, users[other].role, "super_admin");
      assert other in others;
    }
    if v :| v in others { assert users[v].active && HasKey(c, users[v].role, "super_admin"); }
  }

  /** On its own, a request commits exactly when it may run and does not take the
      last super_admin away; then the row is the one asked for, and otherwise
      nothing changes. */
  lemma CommitsExactly(c: Schema, users: map<UserId, User>, req: Request)
    ensures var (users', o) := Serial(c, users, req);
            && (o == Committed <==>
                  && req.id in users && MayRun(c, req, users[req.id]) && KnownRole(c, req)
                  && !(TakesSuperAway(c, req) && OnlySuper(c, users, req.id)))
            && (o == Committed ==> req.id in users && req.id in users' && users' == users[req.id := users'[req.id]]
                                   && AskedFor(req, users[req.id], users'[req.id]))
            && (o != Committed ==> users' == users)
  {
    if req.id in users {
      NewRowIsAskedFor(req, users[req.id]);
      if c.ActiveSuper(users[req.id]) { NoOthersExactly(c, users, req.id); }
    }
  }
}
