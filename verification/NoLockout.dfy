/**
 The no-lockout rule: the portal always keeps an active super_admin, however
 many account transactions run at once.  It rests on the lock that the
 joining SELECT ... FOR UPDATE takes on the shared super_admin roles row.
 */
module NoLockout {
  import opened Text
  import opened PortalAccounts

  predicate Loses(c: Schema, req: Request, cur: User) {
    c.ActiveSuper(cur) && !c.ActiveSuper(NewRow(req, cur))
  }

  /** A transaction let through with a loss leaves another active super_admin. */
  predicate LeavesAnother(c: Schema, s: State, tx: TxId) {
    tx in s.txs && ((s.txs[tx].Passed? || s.txs[tx].Updated?) && Loses(c, s.txs[tx].req, s.txs[tx].cur)
      ==> ActiveSupers(c, s.users) - {s.txs[tx].req.id} != {})
  }

  predicate Inv(c: Schema, s: State) {
    && Locked(c, s)
    && ActiveSupers(c, s.users) != {}
    && (forall tx :: tx in s.txs ==> LeavesAnother(c, s, tx))
  }

  /** Only updateUser can take an active super_admin away, and its count saw another one. */
  lemma LossWasCounted(c: Schema, users: map<UserId, User>, req: Request, cur: User)
    requires c.UniqueKeys() && Verdict(c, users, req, cur).Committed? && Loses(c, req, cur)
    ensures req.UpdateUser? && ActiveSupers(c, users) - {req.id} != {}
  {
  }

  /** Two transactions cannot both be about to take a super_admin away:
      each would hold the one super_admin roles row. */
  lemma OneLossAtATime(c: Schema, s: State, tx: TxId, other: TxId)
    requires c.locksRoleRow && c.UniqueKeys() && Locked(c, s)
    requires tx in s.txs && s.txs[tx].Updated? && s.txs[tx].req.UpdateUser?
    requires other in s.txs && (s.txs[other].Passed? || s.txs[other].Updated?) && s.txs[other].req.UpdateUser?
    requires c.ActiveSuper(s.txs[tx].cur) && c.ActiveSuper(s.txs[other].cur)
    ensures tx == other
  {
    assert Owns(c, s, tx) && Owns(c, s, other);
    assert s.txs[tx].cur.role == s.txs[other].cur.role;
  }

  predicate LossesAreUpdates(c: Schema, s: State) {
    forall tx :: tx in s.txs && (s.txs[tx].Passed? || s.txs[tx].Updated?) && Loses(c, s.txs[tx].req, s.txs[tx].cur)
      ==> s.txs[tx].req.UpdateUser?
  }

  lemma CommitKeepsOthers(c: Schema, s: State, tx: TxId, other: TxId)
    requires c.locksRoleRow && c.UniqueKeys() && Inv(c, s) && LossesAreUpdates(c, s)
    requires tx in s.txs && s.txs[tx].Updated? && other in s.txs && other != tx
    ensures LeavesAnother(c, DoCommit(s, tx), other)
  {
    var s' := DoCommit(s, tx);
    var t, o := s.txs[tx], s.txs[other];
    assert s'.txs[other] == o && LeavesAnother(c, s, other) && Owns(c, s, tx);
    if (o.Passed? || o.Updated?) && Loses(c, o.req, o.cur) {
      var v :| v in ActiveSupers(c, s.users) - {o.req.id};
      if Loses(c, t.req, t.cur) { OneLossAtATime(c, s, tx, other); }
      assert v in ActiveSupers(c, s'.users) - {o.req.id};
    }
  }

  lemma CommitKeepsASuper(c: Schema, s: State, tx: TxId)
    requires Inv(c, s) && tx in s.txs && s.txs[tx].Updated?
    ensures ActiveSupers(c, DoCommit(s, tx).users) != {}
  {
    var t := s.txs[tx];
    assert Owns(c, s, tx) && LeavesAnother(c, s, tx);
    var v :| v in (if Loses(c, t.req, t.cur) then ActiveSupers(c, s.users) - {t.req.id} else ActiveSupers(c, s.users));
    assert v in ActiveSupers(c, DoCommit(s, tx).users);
  }

  lemma CheckLeavesAnother(c: Schema, s: State, tx: TxId)
    requires c.UniqueKeys() && Inv(c, s) && LossesAreUpdates(c, s)
    ensures var s' := DoCheck(c, s, tx);
            LossesAreUpdates(c, s') && forall other :: other in s'.txs ==> LeavesAnother(c, s', other)
  {
    var s' := DoCheck(c, s, tx);
    forall other | other in s'.txs
      ensures LeavesAnother(c, s', other)
    {
      assert LeavesAnother(c, s, other);
      if other == tx && s'.txs[tx].Passed? && s.txs[tx].HoldsAll? && Loses(c, s.txs[tx].req, s.txs[tx].cur) {
        LossWasCounted(c, s.users, s.txs[tx].req, s.txs[tx].cur);
      }
    }
    forall other | other in s'.txs && s'.txs[other].Passed? && Loses(c, s'.txs[other].req, s'.txs[other].cur)
      ensures s'.txs[other].req.UpdateUser?
    {
      if s.txs[other].HoldsAll? { LossWasCounted(c, s.users, s.txs[other].req, s.txs[other].cur); }
    }
  }

  /** Steps other than Check and Commit change no committed row and let nothing through. */
  predicate Quiet(s: State, s': State) {
    && (forall id :: id in s.users ==> id in s'.users && s'.users[id] == s.users[id])
    && (forall tx :: tx in s'.txs && (s'.txs[tx].Passed? || s'.txs[tx].Updated?) ==>
          tx in s.txs && (s.txs[tx].Passed? || s.txs[tx].Updated?)
          && s'.txs[tx].req == s.txs[tx].req && s'.txs[tx].cur == s.txs[tx].cur)
  }

  lemma QuietFinish(s: State, tx: TxId, o: Outcome)
    ensures Quiet(s, Finish(s, tx, o))
  {
  }

  lemma QuietLocks(c: Schema, s: State, tx: TxId)
    ensures Quiet(s, DoLockUser(c, s, tx)) && Quiet(s, DoLockRole(s, tx))
  {
    QuietFinish(s, tx, Refused(NotFound));
  }

  lemma QuietWrite(c: Schema, s: State, tx: TxId)
    ensures Quiet(s, DoWrite(c, s, tx))
  {
    QuietFinish(s, tx, Refused(UnknownRole));
  }

  lemma QuietStep(c: Schema, s: State, step: Step)
    requires !step.Check? && !step.Commit?
    ensures Quiet(s, Apply(c, s, step))
  {
    match step
    case LockUser(tx) => QuietLocks(c, s, tx);
    case LockRole(tx) => QuietLocks(c, s, tx);
    case Write(tx) => QuietWrite(c, s, tx);
    case Abort(tx) => QuietFinish(s, tx, Aborted);
    case _ =>
  }

  lemma QuietStepKeeps(c: Schema, s: State, s': State)
    requires Inv(c, s) && LossesAreUpdates(c, s) && Quiet(s, s')
    ensures ActiveSupers(c, s'.users) != {} && LossesAreUpdates(c, s')
    ensures forall tx :: tx in s'.txs ==> LeavesAnother(c, s', tx)
  {
    assert ActiveSupers(c, s.users) <= ActiveSupers(c, s'.users);
    forall tx | tx in s'.txs ensures LeavesAnother(c, s', tx) {
      if s'.txs[tx].Passed? || s'.txs[tx].Updated? { assert LeavesAnother(c, s, tx); }
    }
  }

  lemma ApplyKeepsInv(c: Schema, s: State, step: Step)
    requires c.locksRoleRow && c.UniqueKeys() && Inv(c, s) && LossesAreUpdates(c, s)
    ensures Inv(c, Apply(c, s, step)) && LossesAreUpdates(c, Apply(c, s, step))
  {
    ApplyKeepsLocked(c, s, step);
    match step
    case Check(tx) => CheckLeavesAnother(c, s, tx);
    case Commit(tx) =>
      if tx in s.txs && s.txs[tx].Updated? {
        CommitKeepsASuper(c, s, tx);
        forall other | other in Apply(c, s, step).txs
          ensures LeavesAnother(c, Apply(c, s, step), other)
        {
          CommitKeepsOthers(c, s, tx, other);
        }
      }
    case _ => QuietStep(c, s, step); QuietStepKeeps(c, s, Apply(c, s, step));
  }

  lemma {:induction false} RunKeepsInv(c: Schema, s: State, steps: seq<Step>)
    requires c.locksRoleRow && c.UniqueKeys() && Inv(c, s) && LossesAreUpdates(c, s)
    ensures Inv(c, Run(c, s, steps))
    decreases |steps|
  {
    if steps != [] {
      ApplyKeepsInv(c, s, steps[0]);
      RunKeepsInv(c, Apply(c, s, steps[0]), steps[1..]);
    }
  }

  // ---- main results -----------------------------------------------------------

  /** Whatever transactions run, in whatever interleaving, some active
      super_admin is committed at every point. */
  lemma NeverLockedOut(c: Schema, users: map<UserId, User>, steps: seq<Step>)
    requires c.locksRoleRow && c.UniqueKeys() && ActiveSupers(c, users) != {}
    ensures ActiveSupers(c, Run(c, Start(users), steps).users) != {}
  {
    RunKeepsInv(c, Start(users), steps);
  }

  /** The refusal is exact: another person's update is refused as "last active
      super_admin" when and only when writing it would leave none. */
  lemma RefusedExactlyWhenLast(c: Schema, users: map<UserId, User>, req: Request)
    requires req.UpdateUser? && req.id != req.actor && req.id in users
    requires ActiveSupers(c, users) != {}
    ensures Verdict(c, users, req, users[req.id]) == Refused(LastSuperAdmin)
        <==> ActiveSupers(c, users[req.id := NewRow(req, users[req.id])]) == {}
  {
    var users' := users[req.id := NewRow(req, users[req.id])];
    var others := ActiveSupers(c, users) - {req.id};
    assert ActiveSupers(c, users') - {req.id} == others;
    assert req.id in ActiveSupers(c, users') <==> c.ActiveSuper(NewRow(req, users[req.id]));
    if others == {} {
      assert ActiveSupers(c, users) <= {req.id};
      assert ActiveSupers(c, users') <= {req.id};
    } else {
      var v :| v in others;
      assert v in ActiveSupers(c, users');
    }
  }

  // ---- why the roles row must be locked ----------------------------------------

  function Demotion(users: map<UserId, User>, id: UserId, role: RoleId, actor: UserId): Request
    requires id in users
  {
    UpdateUser(id, users[id].email, role, true, actor)
  }

  /** Transactions t and u each demote the other's administrator; both count before either commits. */
  function Race(t: TxId, u: TxId, p: Request, q: Request): seq<seq<Step>> {
    [[Begin(t, p), Begin(u, q), LockUser(t), LockUser(u)],
     [LockRole(t), LockRole(u), Check(t), Check(u)],
     [Write(t), Write(u), Commit(t), Commit(u)]]
  }

  /** The race when the two transactions have reached stages `x` and `y`. */
  function Both(users: map<UserId, User>, t: TxId, u: TxId, x: Tx, y: Tx): State {
    State(users, map[x.req.id := t, y.req.id := u], map[], map[t := x, u := y], map[])
  }

  lemma RaceReads(c: Schema, users: map<UserId, User>, t: TxId, u: TxId, p: Request, q: Request)
    requires !c.locksRoleRow && t != u && p.id != q.id && p.UpdateUser? && q.UpdateUser?
    requires p.id in users && q.id in users
    ensures Run(c, Start(users), Race(t, u, p, q)[0])
         == Both(users, t, u, HoldsAll(p, users[p.id]), HoldsAll(q, users[q.id]))
  {
    FourSteps(c, Start(users), Race(t, u, p, q)[0]);
    var s2 := DoBegin(DoBegin(Start(users), t, p), u, q);
    assert s2 == State(users, map[], map[],
        map[t := Waiting(p, users[p.id].role), u := Waiting(q, users[q.id].role)], map[]);
    var s3 := DoLockUser(c, s2, t);
    assert s3.userLock == map[p.id := t];
  }

  lemma RaceChecks(c: Schema, users: map<UserId, User>, t: TxId, u: TxId, p: Request, q: Request)
    requires t != u && p.id in users && q.id in users
    requires Verdict(c, users, p, users[p.id]).Committed? && Verdict(c, users, q, users[q.id]).Committed?
    ensures Run(c, Both(users, t, u, HoldsAll(p, users[p.id]), HoldsAll(q, users[q.id])), Race(t, u, p, q)[1])
         == Both(users, t, u, Passed(p, users[p.id]), Passed(q, users[q.id]))
  {
    var s := Both(users, t, u, HoldsAll(p, users[p.id]), HoldsAll(q, users[q.id]));
    FourSteps(c, s, Race(t, u, p, q)[1]);
    assert DoLockRole(s, t) == s && DoLockRole(s, u) == s;
    assert DoCheck(c, s, t) == Both(users, t, u, Passed(p, users[p.id]), HoldsAll(q, users[q.id]));
  }

  lemma RaceCommits(c: Schema, users: map<UserId, User>, t: TxId, u: TxId, p: Request, q: Request)
    requires t != u && p.id != q.id && p.id in users && q.id in users
    requires p.UpdateUser? && q.UpdateUser? && p.role in c.roles && q.role in c.roles
    ensures Run(c, Both(users, t, u, Passed(p, users[p.id]), Passed(q, users[q.id])), Race(t, u, p, q)[2]).users
         == users[p.id := NewRow(p, users[p.id])][q.id := NewRow(q, users[q.id])]
  {
    var s := Both(users, t, u, Passed(p, users[p.id]), Passed(q, users[q.id]));
    FourSteps(c, s, Race(t, u, p, q)[2]);
    var s2 := DoWrite(c, DoWrite(c, s, t), u);
    assert s2 == Both(users, t, u, Updated(p, users[p.id]), Updated(q, users[q.id]));
    assert DoCommit(s2, t).txs == map[u := Updated(q, users[q.id])];
  }

  /** If the SELECT locked only the user row (FOR UPDATE OF u), the last two
      super_admins could demote each other at once and lock everyone out. */
  lemma UserRowLockIsNotEnough(c: Schema, users: map<UserId, User>, a: UserId, b: UserId, role: RoleId, t: TxId,
      u: TxId)
    requires !c.locksRoleRow && ActiveSupers(c, users) == {a, b} && a != b && t != u
    requires a in users && b in users && role in c.roles && !c.IsSuper(role)
    ensures var r := Race(t, u, Demotion(users, a, role, b), Demotion(users, b, role, a));
            ActiveSupers(c, Run(c, Start(users), r[0] + (r[1] + r[2])).users) == {}
  {
    var p, q := Demotion(users, a, role, b), Demotion(users, b, role, a);
    var r := Race(t, u, p, q);
    assert b in ActiveSupers(c, users) - {a} && a in ActiveSupers(c, users) - {b};
    RaceReads(c, users, t, u, p, q);
    RaceChecks(c, users, t, u, p, q);
    RaceCommits(c, users, t, u, p, q);
    RunConcat(c, Start(users), r[0], r[1] + r[2]);
    RunConcat(c, Run(c, Start(users), r[0]), r[1], r[2]);
    NoneLeft(c, users, p, q);
  }

  lemma NoneLeft(c: Schema, users: map<UserId, User>, p: Request, q: Request)
    requires p.UpdateUser? && q.UpdateUser? && p.id in users && q.id in users
    requires ActiveSupers(c, users) == {p.id, q.id} && !c.IsSuper(p.role) && !c.IsSuper(q.role)
    ensures ActiveSupers(c, users[p.id := NewRow(p, users[p.id])][q.id := NewRow(q, users[q.id])]) == {}
  {
    var users' := users[p.id := NewRow(p, users[p.id])][q.id := NewRow(q, users[q.id])];
    forall id | id in users' ensures !c.ActiveSuper(users'[id]) {
      if id != p.id && id != q.id { assert id !in ActiveSupers(c, users); }
    }
  }

  lemma FourSteps(c: Schema, s: State, steps: seq<Step>)
    requires |steps| == 4
    ensures Run(c, s, steps) == Apply(c, Apply(c, Apply(c, Apply(c, s, steps[0]), steps[1]), steps[2]), steps[3])
  {
    assert steps == [steps[0]] + ([steps[1]] + ([steps[2]] + ([steps[3]] + [])));
    RunCons(c, s, steps[0], [steps[1]] + ([steps[2]] + ([steps[3]] + [])));
    var s1 := Apply(c, s, steps[0]);
    RunCons(c, s1, steps[1], [steps[2]] + ([steps[3]] + []));
    var s2 := Apply(c, s1, steps[1]);
    RunCons(c, s2, steps[2], [steps[3]] + []);
    RunCons(c, Apply(c, s2, steps[2]), steps[3], []);
  }

  /** A side effect of joining `roles` under the lock: an update that waits
      while the same user's row is rewritten ends as "user not found" exactly
      when the other transaction changed the role. */
  lemma RoleChangeHidesTheUser(c: Schema, s: State, waiting: TxId, writing: TxId)
    requires c.locksRoleRow && Locked(c, s) && waiting !in s.outcomes
    requires waiting in s.txs && s.txs[waiting].Waiting? && s.txs[waiting].req.JoinsRoles()
    requires writing in s.txs && s.txs[writing].Updated? && s.txs[writing].req.id == s.txs[waiting].req.id
    ensures var s' := Run(c, s, [Commit(writing), LockUser(waiting)]);
            if NewRow(s.txs[writing].req, s.txs[writing].cur).role == s.txs[waiting].snapshotRole
            then waiting in s'.txs && s'.txs[waiting].HoldsUser?
            else waiting in s'.outcomes && s'.outcomes[waiting] == Refused(NotFound)
  {
    assert Owns(c, s, writing);
    var s1 := Apply(c, s, Commit(writing));
    assert [Commit(writing), LockUser(waiting)] == [Commit(writing)] + ([LockUser(waiting)] + []);
    RunCons(c, s, Commit(writing), [LockUser(waiting)] + []);
    RunCons(c, s1, LockUser(waiting), []);
  }
}
