/**
 Portal accounts: the transactions that write `portal_users`, run together.

 Each transaction runs under READ COMMITTED.  Its statements are separate
 steps here, so transactions interleave between any two of them:

   Begin     the locking SELECT (or the UPDATE itself) takes its snapshot
   LockUser  it locks the user row and re-checks its WHERE on the newest version
   LockRole  a SELECT that joins `roles` and says FOR UPDATE without OF locks
             the joined roles row too
   Check     what the code tests between reading and writing
   Write     the UPDATE, visible only to its own transaction
   Commit    the row becomes visible and the locks are released

 A step that would have to wait leaves the state as it is, so every sequence
 of steps is an interleaving.
 */
module PortalAccounts {
  import opened Text

  type UserId = nat
  type RoleId = nat
  type TxId = nat
  type Hash = nat

  datatype User = User(role: RoleId, active: bool, email: string, hash: Hash, version: nat)

  datatype Request =
    | UpdateUser(id: UserId, email: string, role: RoleId, active: bool, actor: UserId)
    | UpdateViewer(id: UserId, email: string, active: bool, mayChangeEmail: bool, hasGrant: bool)
    // resetPassword by an administrator, and the UPDATE of consumeResetToken
    | SetPassword(id: UserId, hash: Hash)
    | ChangeOwnPassword(id: UserId, current: Hash, hash: Hash)
  {
    /** Does its locking SELECT join `roles`? */
    predicate JoinsRoles() { UpdateUser? || UpdateViewer? }
  }

  datatype Refusal =
    | NotFound | SelfDeactivation | SelfDemotion | LastSuperAdmin
    | NotAViewer | NoGrant | EmailNotYours | WrongPassword | UnknownRole

  datatype Outcome = Committed | Refused(reason: Refusal) | Aborted

  datatype Tx =
    | Waiting(req: Request, snapshotRole: RoleId)
    | HoldsUser(req: Request, snapshotRole: RoleId)
    | HoldsAll(req: Request, cur: User)
    | Passed(req: Request, cur: User)
    | Updated(req: Request, cur: User)

  datatype State = State(
    users: map<UserId, User>,          // committed rows
    userLock: map<UserId, TxId>,
    roleLock: map<RoleId, TxId>,
    txs: map<TxId, Tx>,                // transactions in progress
    outcomes: map<TxId, Outcome>)      // finished ones

  datatype Step =
    | Begin(tx: TxId, req: Request)
    | LockUser(tx: TxId)
    | LockRole(tx: TxId)
    | Check(tx: TxId)
    | Write(tx: TxId)
    | Commit(tx: TxId)
    | Abort(tx: TxId)                  // deadlock victim, lost connection, unique violation
    | Create(id: UserId, role: RoleId, email: string, hash: Hash)

  /** What is fixed while the portal runs: the role keys (roles.key is UNIQUE),
      and whether the locking join locks the roles row as well. */
  datatype Schema = Schema(roles: map<RoleId, string>, locksRoleRow: bool) {
    predicate UniqueKeys() {
      forall a, b :: a in roles && b in roles && roles[a] == roles[b] ==> a == b
    }

    predicate IsSuper(r: RoleId) { r in roles && roles[r] == "super_admin" }

    predicate IsViewer(r: RoleId) { r in roles && roles[r] == "client_viewer" }

    predicate ActiveSuper(u: User) { u.active && IsSuper(u.role) }
  }

  function ActiveSupers(c: Schema, users: map<UserId, User>): set<UserId> {
    set id | id in users && c.ActiveSuper(users[id])
  }

  function Bump(before: string, after: string): nat {
    if Lower(before) != Lower(after) then 1 else 0
  }

  /** The row the UPDATE writes over `cur`. */
  function NewRow(req: Request, cur: User): User {
    match req
    case UpdateUser(_, email, role, active, _) =>
      cur.(email := email, role := role, active := active, version := cur.version + Bump(cur.email, email))
    case UpdateViewer(_, email, active, _, _) =>
      cur.(email := email, active := active, version := cur.version + Bump(cur.email, email))
    case SetPassword(_, hash) => cur.(hash := hash, version := cur.version + 1)
    case ChangeOwnPassword(_, _, hash) => cur.(hash := hash, version := cur.version + 1)
  }

  /** The tests between the locking SELECT and the UPDATE. */
  function Verdict(c: Schema, users: map<UserId, User>, req: Request, cur: User): Outcome {
    match req
    case UpdateUser(id, _, role, active, actor) =>
      if id == actor && !active then Refused(SelfDeactivation)
      else if id == actor && c.IsSuper(cur.role) && !c.IsSuper(role) then Refused(SelfDemotion)
      else if c.ActiveSuper(cur) && (!active || !c.IsSuper(role))
              && |ActiveSupers(c, users) - {id}| == 0 then Refused(LastSuperAdmin)
      else Committed
    case UpdateViewer(_, email, _, mayChangeEmail, hasGrant) =>
      if !c.IsViewer(cur.role) then Refused(NotAViewer)
      else if !hasGrant then Refused(NoGrant)
      else if Bump(cur.email, email) == 1 && !mayChangeEmail then Refused(EmailNotYours)
      else Committed
    case SetPassword(_, _) => Committed
    case ChangeOwnPassword(_, current, _) =>
      if cur.hash == current then Committed else Refused(WrongPassword)
  }

  /** The WHERE clause of the first statement, against the newest row version.
      A join re-joins it with the roles row of the snapshot, so a role changed
      since then makes the join come up empty. */
  predicate StillMatches(req: Request, snapshotRole: RoleId, row: User) {
    (req.JoinsRoles() ==> row.role == snapshotRole) && (req.ChangeOwnPassword? ==> row.active)
  }

  /** The transaction ends: its locks are released and its outcome is known. */
  function Finish(s: State, tx: TxId, o: Outcome): State {
    s.(txs := s.txs - {tx},
       userLock := map id | id in s.userLock && s.userLock[id] != tx :: s.userLock[id],
       roleLock := map r | r in s.roleLock && s.roleLock[r] != tx :: s.roleLock[r],
       outcomes := s.outcomes[tx := o])
  }

  function DoBegin(s: State, tx: TxId, req: Request): State {
    if tx in s.txs || tx in s.outcomes then s
    else if req.id !in s.users || (req.ChangeOwnPassword? && !s.users[req.id].active) then
      s.(outcomes := s.outcomes[tx := Refused(NotFound)])
    else s.(txs := s.txs[tx := Waiting(req, s.users[req.id].role)])
  }

  function DoLockUser(c: Schema, s: State, tx: TxId): State {
    if tx !in s.txs || !s.txs[tx].Waiting? || s.txs[tx].req.id in s.userLock then s
    else
      var t := s.txs[tx];
      if t.req.id !in s.users || !StillMatches(t.req, t.snapshotRole, s.users[t.req.id]) then
        Finish(s, tx, Refused(NotFound))
      else
        s.(userLock := s.userLock[t.req.id := tx],
           txs := s.txs[tx := if t.req.JoinsRoles() && c.locksRoleRow then HoldsUser(t.req, t.snapshotRole)
                              else HoldsAll(t.req, s.users[t.req.id])])
  }

  function DoLockRole(s: State, tx: TxId): State {
    if tx !in s.txs || !s.txs[tx].HoldsUser? || s.txs[tx].snapshotRole in s.roleLock
       || s.txs[tx].req.id !in s.users then s
    else
      var t := s.txs[tx];
      s.(roleLock := s.roleLock[t.snapshotRole := tx],
         txs := s.txs[tx := HoldsAll(t.req, s.users[t.req.id])])
  }

  function DoCheck(c: Schema, s: State, tx: TxId): State {
    if tx !in s.txs || !s.txs[tx].HoldsAll? then s
    else
      var t := s.txs[tx];
      var v := Verdict(c, s.users, t.req, t.cur);
      if v.Committed? then s.(txs := s.txs[tx := Passed(t.req, t.cur)]) else Finish(s, tx, v)
  }

  function DoWrite(c: Schema, s: State, tx: TxId): State {
    if tx !in s.txs || !s.txs[tx].Passed? then s
    else
      var t := s.txs[tx];
      if t.req.UpdateUser? && t.req.role !in c.roles then Finish(s, tx, Refused(UnknownRole))  // foreign key
      else s.(txs := s.txs[tx := Updated(t.req, t.cur)])
  }

  function DoCommit(s: State, tx: TxId): State {
    if tx !in s.txs || !s.txs[tx].Updated? then s
    else
      var t := s.txs[tx];
      Finish(s.(users := s.users[t.req.id := NewRow(t.req, t.cur)]), tx, Committed)
  }

  function Apply(c: Schema, s: State, step: Step): State {
    match step
    case Begin(tx, req) => DoBegin(s, tx, req)
    case LockUser(tx) => DoLockUser(c, s, tx)
    case LockRole(tx) => DoLockRole(s, tx)
    case Check(tx) => DoCheck(c, s, tx)
    case Write(tx) => DoWrite(c, s, tx)
    case Commit(tx) => DoCommit(s, tx)
    case Abort(tx) => if tx !in s.txs then s else Finish(s, tx, Aborted)
    case Create(id, role, email, hash) =>
      if id in s.users then s else s.(users := s.users[id := User(role, true, email, hash, 0)])
  }

  function Run(c: Schema, s: State, steps: seq<Step>): State
    decreases |steps|
  {
    if steps == [] then s else Run(c, Apply(c, s, steps[0]), steps[1..])
  }

  function Start(users: map<UserId, User>): State {
    State(users, map[], map[], map[], map[])
  }

  lemma {:induction false} RunConcat(c: Schema, s: State, a: seq<Step>, b: seq<Step>)
    ensures Run(c, s, a + b) == Run(c, Run(c, s, a), b)
    decreases |a|
  {
    if a == [] {
      assert a + b == b;
    } else {
      assert (a + b)[1..] == a[1..] + b;
      RunConcat(c, Apply(c, s, a[0]), a[1..], b);
    }
  }

  lemma RunCons(c: Schema, s: State, step: Step, rest: seq<Step>)
    ensures Run(c, s, [step] + rest) == Run(c, Apply(c, s, step), rest)
  {
    assert ([step] + rest)[1..] == rest;
  }

  // ---- locks protect what was read -------------------------------------------

  /** Past its user lock, a transaction owns it, and what it read still stands. */
  predicate Owns(c: Schema, s: State, tx: TxId) {
    tx in s.txs &&
    match s.txs[tx]
    case Waiting(_, _) => true
    case HoldsUser(req, role) => OwnsUser(s, tx, req) && s.users[req.id].role == role
    case HoldsAll(req, cur) => Stands(c, s, tx, req, cur)
    case Passed(req, cur) => Stands(c, s, tx, req, cur)
    case Updated(req, cur) => Stands(c, s, tx, req, cur)
  }

  predicate OwnsUser(s: State, tx: TxId, req: Request) {
    req.id in s.users && req.id in s.userLock && s.userLock[req.id] == tx
  }

  predicate Stands(c: Schema, s: State, tx: TxId, req: Request, cur: User) {
    && OwnsUser(s, tx, req) && s.users[req.id] == cur
    && (c.locksRoleRow && req.JoinsRoles() ==> cur.role in s.roleLock && s.roleLock[cur.role] == tx)
  }

  predicate Locked(c: Schema, s: State) {
    forall tx :: tx in s.txs ==> Owns(c, s, tx)
  }

  /** A transaction that ends without writing does not disturb the others. */
  lemma FinishKeepsLocked(c: Schema, s: State, tx: TxId, o: Outcome)
    requires Locked(c, s) && tx in s.txs
    ensures Locked(c, Finish(s, tx, o))
  {
    forall other | other in Finish(s, tx, o).txs ensures Owns(c, Finish(s, tx, o), other) {
      assert Owns(c, s, other);
    }
  }

  lemma LockUserKeepsLocked(c: Schema, s: State, tx: TxId)
    requires Locked(c, s)
    ensures Locked(c, DoLockUser(c, s, tx))
  {
    var s' := DoLockUser(c, s, tx);
    if s' != s && tx !in s'.txs {
      FinishKeepsLocked(c, s, tx, Refused(NotFound));
    } else {
      forall other | other in s'.txs ensures Owns(c, s', other) {
        assert Owns(c, s, other);
      }
    }
  }

  lemma LockRoleKeepsLocked(c: Schema, s: State, tx: TxId)
    requires Locked(c, s)
    ensures Locked(c, DoLockRole(s, tx))
  {
    var s' := DoLockRole(s, tx);
    forall other | other in s'.txs ensures Owns(c, s', other) {
      assert Owns(c, s, other);
    }
  }

  lemma CheckKeepsLocked(c: Schema, s: State, tx: TxId)
    requires Locked(c, s)
    ensures Locked(c, DoCheck(c, s, tx))
  {
    var s' := DoCheck(c, s, tx);
    if tx in s.txs && s.txs[tx].HoldsAll? {
      var v := Verdict(c, s.users, s.txs[tx].req, s.txs[tx].cur);
      if v.Committed? {
        forall other | other in s'.txs ensures Owns(c, s', other) {
          assert Owns(c, s, other);
        }
      } else {
        FinishKeepsLocked(c, s, tx, v);
      }
    }
  }

  lemma WriteKeepsLocked(c: Schema, s: State, tx: TxId)
    requires Locked(c, s)
    ensures Locked(c, DoWrite(c, s, tx))
  {
    var s' := DoWrite(c, s, tx);
    if s' != s && tx !in s'.txs {
      FinishKeepsLocked(c, s, tx, Refused(UnknownRole));
    } else {
      forall other | other in s'.txs ensures Owns(c, s', other) {
        assert Owns(c, s, other);
      }
    }
  }

  lemma CommitKeepsLocked(c: Schema, s: State, tx: TxId)
    requires Locked(c, s)
    ensures Locked(c, DoCommit(s, tx))
  {
    var s' := DoCommit(s, tx);
    if tx in s.txs && s.txs[tx].Updated? {
      assert Owns(c, s, tx);
      forall other | other in s'.txs ensures Owns(c, s', other) {
        assert Owns(c, s, other);
      }
    }
  }

  lemma BeginKeepsLocked(c: Schema, s: State, tx: TxId, req: Request)
    requires Locked(c, s)
    ensures Locked(c, DoBegin(s, tx, req))
  {
    var s' := DoBegin(s, tx, req);
    forall other | other in s'.txs ensures Owns(c, s', other) {
      assert other in s.txs ==> Owns(c, s, other);
    }
  }

  lemma CreateKeepsLocked(c: Schema, s: State, id: UserId, u: User)
    requires Locked(c, s) && id !in s.users
    ensures Locked(c, s.(users := s.users[id := u]))
  {
    var s' := s.(users := s.users[id := u]);
    forall other | other in s'.txs ensures Owns(c, s', other) { assert Owns(c, s, other); }
  }

  /** Everything a running transaction read stays true until it ends. */
  lemma ApplyKeepsLocked(c: Schema, s: State, step: Step)
    requires Locked(c, s)
    ensures Locked(c, Apply(c, s, step))
  {
    match step
    case LockUser(tx) => LockUserKeepsLocked(c, s, tx);
    case LockRole(tx) => LockRoleKeepsLocked(c, s, tx);
    case Check(tx) => CheckKeepsLocked(c, s, tx);
    case Write(tx) => WriteKeepsLocked(c, s, tx);
    case Commit(tx) => CommitKeepsLocked(c, s, tx);
    case Abort(tx) => if tx in s.txs { FinishKeepsLocked(c, s, tx, Aborted); }
    case Begin(tx, req) => BeginKeepsLocked(c, s, tx, req);
    case Create(id, role, email, hash) =>
      if id !in s.users { CreateKeepsLocked(c, s, id, User(role, true, email, hash, 0)); }
  }

  lemma {:induction false} RunKeepsLocked(c: Schema, s: State, steps: seq<Step>)
    requires Locked(c, s)
    ensures Locked(c, Run(c, s, steps))
    decreases |steps|
  {
    if steps != [] {
      ApplyKeepsLocked(c, s, steps[0]);
      RunKeepsLocked(c, Apply(c, s, steps[0]), steps[1..]);
    }
  }

  // ---- one transaction on its own ---------------------------------------------

  /** The whole transaction as one atomic function of the committed rows. */
  function Serial(c: Schema, users: map<UserId, User>, req: Request): (map<UserId, User>, Outcome) {
    if req.id !in users || (req.ChangeOwnPassword? && !users[req.id].active) then (users, Refused(NotFound))
    else
      var cur := users[req.id];
      var v := Verdict(c, users, req, cur);
      if !v.Committed? then (users, v)
      else if req.UpdateUser? && req.role !in c.roles then (users, Refused(UnknownRole))
      else (users[req.id := NewRow(req, cur)], Committed)
  }

  /** The steps of a transaction after Begin. */
  function Rest(tx: TxId): seq<Step> { [LockUser(tx), LockRole(tx), Check(tx), Write(tx), Commit(tx)] }

  lemma EndedStaysEnded(c: Schema, s: State, tx: TxId, steps: seq<Step>)
    requires tx !in s.txs
    requires forall i :: 0 <= i < |steps| ==> steps[i] in Rest(tx)
    ensures Run(c, s, steps) == s
    decreases |steps|
  {
    if steps != [] {
      assert steps[0] in Rest(tx);
      EndedStaysEnded(c, s, tx, steps[1..]);
    }
  }

  lemma LastTwo(c: Schema, s: State, tx: TxId)
    ensures var s2 := Apply(c, s, Write(tx));
            Run(c, s, [Write(tx), Commit(tx)])
              == if tx !in s.txs then s else if tx !in s2.txs then s2 else Apply(c, s2, Commit(tx))
  {
    if tx !in s.txs {
      EndedStaysEnded(c, s, tx, [Write(tx), Commit(tx)]);
    } else {
      var s2 := Apply(c, s, Write(tx));
      assert [Write(tx), Commit(tx)] == [Write(tx)] + [Commit(tx)] && [Commit(tx)] == [Commit(tx)] + [];
      RunCons(c, s, Write(tx), [Commit(tx)]);
      RunCons(c, s2, Commit(tx), []);
      if tx !in s2.txs { EndedStaysEnded(c, s2, tx, [Commit(tx)]); }
    }
  }

  /** From the state where the row has been read, the rest is the verdict and the write. */
  lemma FinishAlone(c: Schema, users: map<UserId, User>, tx: TxId, req: Request, roleLock: map<RoleId, TxId>)
    requires req.id in users && (forall r :: r in roleLock ==> roleLock[r] == tx)
    requires !req.ChangeOwnPassword? || users[req.id].active
    ensures Run(c, State(users, map[req.id := tx], roleLock, map[tx := HoldsAll(req, users[req.id])], map[]),
                [Check(tx), Write(tx), Commit(tx)])
         == State(Serial(c, users, req).0, map[], map[], map[], map[tx := Serial(c, users, req).1])
  {
    var s := State(users, map[req.id := tx], roleLock, map[tx := HoldsAll(req, users[req.id])], map[]);
    var s1 := Apply(c, s, Check(tx));
    RunCons(c, s, Check(tx), [Write(tx), Commit(tx)]);
    assert [Check(tx), Write(tx), Commit(tx)] == [Check(tx)] + [Write(tx), Commit(tx)];
    LastTwo(c, s1, tx);
  }

  /** Run alone, the steps of a transaction do exactly what the atomic function
      says, and leave no lock behind. */
  lemma SoloRunIsSerial(c: Schema, users: map<UserId, User>, tx: TxId, req: Request)
    ensures Run(c, Start(users), [Begin(tx, req)] + Rest(tx))
         == State(Serial(c, users, req).0, map[], map[], map[], map[tx := Serial(c, users, req).1])
  {
    var s0 := Start(users);
    var s1 := Apply(c, s0, Begin(tx, req));
    RunCons(c, s0, Begin(tx, req), Rest(tx));
    if tx !in s1.txs {
      EndedStaysEnded(c, s1, tx, Rest(tx));
    } else {
      var finish := [Check(tx), Write(tx), Commit(tx)];
      var s2 := Apply(c, s1, LockUser(tx));
      var s3 := Apply(c, s2, LockRole(tx));
      assert Rest(tx) == [LockUser(tx)] + ([LockRole(tx)] + finish);
      RunCons(c, s1, LockUser(tx), [LockRole(tx)] + finish);
      RunCons(c, s2, LockRole(tx), finish);
      assert s3 == State(users, map[req.id := tx], s3.roleLock, map[tx := HoldsAll(req, users[req.id])], map[]);
      FinishAlone(c, users, tx, req, s3.roleLock);
    }
  }
}
