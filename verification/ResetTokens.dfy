/**
 Password-reset tokens: issue, peek and consume, each one transaction.  Tokens
 are opaque and never repeat; the table stores one row per token.
 */
module ResetTokens {
  import opened Options
  import opened PortalAccounts

  type Token = string

  const RESET_TTL_SECS := 30 * 60
  const PURGE_AFTER_SECS := 24 * 60 * 60

  datatype Row = Row(user: UserId, expires: int, used: bool)

  datatype Db = Db(now: int, users: map<UserId, User>, tokens: map<Token, Row>, issued: set<Token>)

  /** The shape 32 random bytes take in base64url. */
  predicate WellFormed(t: Token) {
    |t| == 43 && forall i :: 0 <= i < |t| ==>
      'A' <= t[i] <= 'Z' || 'a' <= t[i] <= 'z' || '0' <= t[i] <= '9' || t[i] == '_' || t[i] == '-'
  }

  /** Unused, unexpired, and its user active. */
  predicate Usable(db: Db, t: Token) {
    && WellFormed(t) && t in db.tokens && !db.tokens[t].used && db.tokens[t].expires > db.now
    && db.tokens[t].user in db.users && db.users[db.tokens[t].user].active
  }

  function Purged(tokens: map<Token, Row>, now: int): map<Token, Row> {
    map t | t in tokens && !(tokens[t].expires < now - PURGE_AFTER_SECS) :: tokens[t]
  }

  function Retired(tokens: map<Token, Row>, user: UserId): map<Token, Row> {
    map t | t in tokens :: if tokens[t].user == user then tokens[t].(used := true) else tokens[t]
  }

  datatype Op =
    | Issue(user: UserId, token: Token)
    | Consume(token: Token, hash: Hash)
    | SetActive(user: UserId, active: bool)
    | Tick(secs: nat)

  /** The table after a token is issued. */
  function AfterIssue(db: Db, user: UserId, t: Token): Db {
    if user !in db.users || t in db.issued then db   // foreign key; tokens never repeat
    else db.(tokens := Retired(Purged(db.tokens, db.now), user)[t := Row(user, db.now + RESET_TTL_SECS, false)],
             issued := db.issued + {t})
  }

  function AfterConsume(db: Db, t: Token, hash: Hash): Db {
    if !Usable(db, t) then db
    else
      var id := db.tokens[t].user;
      db.(users := db.users[id := NewRow(SetPassword(id, hash), db.users[id])],
          tokens := Retired(db.tokens, id))
  }

  function Apply(db: Db, op: Op): Db {
    match op
    case Issue(user, t) => AfterIssue(db, user, t)
    case Consume(t, hash) => AfterConsume(db, t, hash)
    case SetActive(user, active) =>
      if user in db.users then db.(users := db.users[user := db.users[user].(active := active)]) else db
    case Tick(secs) => db.(now := db.now + secs)
  }

  function Run(db: Db, ops: seq<Op>): Db
    decreases |ops|
  {
    if ops == [] then db else Run(Apply(db, ops[0]), ops[1..])
  }

  // ---- the code ------------------------------------------------------------------

  class TokenTable {
    var now: int
    var users: map<UserId, User>
    var tokens: map<Token, Row>
    ghost var issued: set<Token>

    constructor (now: int, users: map<UserId, User>)
      ensures State() == Db(now, users, map[], {})
    {
      this.now, this.users, this.tokens, this.issued := now, users, map[], {};
    }

    ghost function State(): Db reads this { Db(now, users, tokens, issued) }

    /** Three statements in one transaction: purge, retire, insert.  The token
        is 32 fresh random bytes; a user that does not exist violates the
        foreign key and rolls everything back. */
    method IssueResetToken(user: UserId, t: Token) returns (ok: bool)
      requires t !in issued
      modifies this
      ensures ok == (user in old(users)) && State() == AfterIssue(old(State()), user, t)
    {
      if user !in users { return false; }
      tokens := Purged(tokens, now);
      tokens := map k | k in tokens :: if tokens[k].user == user && !tokens[k].used then tokens[k].(used := true)
          else tokens[k];
      tokens := tokens[t := Row(user, now + RESET_TTL_SECS, false)];
      issued := issued + {t};
      ok := true;
    }

    method PeekResetToken(t: Token) returns (ok: bool)
      ensures ok == Usable(State(), t)
    {
      if !WellFormed(t) { return false; }
      ok := t in tokens && !tokens[t].used && tokens[t].expires > now
            && tokens[t].user in users && users[tokens[t].user].active;
    }

    /** The user's e-mail address on success. */
    method ConsumeResetToken(t: Token, hash: Hash) returns (email: Option<string>)
      modifies this
      ensures State() == AfterConsume(old(State()), t, hash)
      ensures email.Some? == Usable(old(State()), t)
      ensures email.Some? ==> email.value == old(users[tokens[t].user].email)
    {
      if !WellFormed(t) { return None; }
      if t !in tokens || tokens[t].used || tokens[t].expires <= now { return None; }
      var id := tokens[t].user;
      if id !in users || !users[id].active { return None; }
      users := users[id := users[id].(hash := hash, version := users[id].version + 1)];
      tokens := map k | k in tokens :: if tokens[k].user == id && !tokens[k].used then tokens[k].(used := true)
          else tokens[k];
      email := Some(users[id].email);
    }
  }

  // ---- serial runs ------------------------------------------------------------------

  /** At most one unused row per user, and no row without an issue. */
  predicate Inv(db: Db) {
    && db.tokens.Keys <= db.issued
    && (forall t, u ::
          (t in db.tokens && u in db.tokens && !db.tokens[t].used && !db.tokens[u].used
              && db.tokens[t].user == db.tokens[u].user)
          ==> t == u)
  }

  /** How many consumes of `t` in the run succeed. */
  function Wins(db: Db, ops: seq<Op>, t: Token): nat
    decreases |ops|
  {
    if ops == [] then 0
    else (if ops[0].Consume? && ops[0].token == t && Usable(db, t) then 1 else 0) + Wins(Apply(db, ops[0]), ops[1..], t)
  }

  lemma {:induction false} AtMostOneUsable(db: Db, ops: seq<Op>, t: Token, u: Token)
    requires Inv(db)
    ensures Inv(Run(db, ops))
    ensures var db' := Run(db, ops);
            Usable(db', t) && Usable(db', u) && db'.tokens[t].user == db'.tokens[u].user ==> t == u
    decreases |ops|
  {
    if ops != [] {
      AtMostOneUsable(Apply(db, ops[0]), ops[1..], t, u);
    }
  }

  predicate Spent(db: Db, t: Token) {
    t in db.issued && (t in db.tokens ==> db.tokens[t].used)
  }

  lemma {:induction false} SpentNeverWins(db: Db, ops: seq<Op>, t: Token)
    requires Spent(db, t)
    ensures Wins(db, ops, t) == 0 && Spent(Run(db, ops), t)
    decreases |ops|
  {
    if ops != [] {
      SpentNeverWins(Apply(db, ops[0]), ops[1..], t);
    }
  }

  /** However often a token is presented, it sets a password at most once. */
  lemma {:induction false} WinsAtMostOnce(db: Db, ops: seq<Op>, t: Token)
    requires Inv(db)
    ensures Wins(db, ops, t) <= 1
    decreases |ops|
  {
    if ops != [] {
      AtMostOneUsable(db, [ops[0]], t, t);
      assert Run(db, [ops[0]]) == Apply(db, ops[0]);
      if ops[0].Consume? && ops[0].token == t && Usable(db, t) {
        SpentNeverWins(Apply(db, ops[0]), ops[1..], t);
      } else {
        WinsAtMostOnce(Apply(db, ops[0]), ops[1..], t);
      }
    }
  }

  predicate IssuesFor(ops: seq<Op>, user: UserId) {
    exists i :: 0 <= i < |ops| && ops[i].Issue? && ops[i].user == user
  }

  predicate NoUnused(db: Db, user: UserId) {
    forall t :: t in db.tokens && db.tokens[t].user == user ==> db.tokens[t].used
  }

  lemma {:induction false} NoUnusedUntilIssue(db: Db, ops: seq<Op>, user: UserId, t: Token)
    requires NoUnused(db, user) && !IssuesFor(ops, user)
    ensures NoUnused(Run(db, ops), user)
    decreases |ops|
  {
    if ops != [] {
      forall i | 0 <= i < |ops[1..]| ensures !(ops[1..][i].Issue? && ops[1..][i].user == user) {
        assert ops[1..][i] == ops[i + 1];
      }
      assert !(ops[0].Issue? && ops[0].user == user);
      NoUnusedUntilIssue(Apply(db, ops[0]), ops[1..], user, t);
    }
  }

  /** After a successful reset the user has no usable token until one is
      issued again; the reset itself bumps the version and nobody else's row. */
  lemma ResetRetiresAll(db: Db, t: Token, hash: Hash, ops: seq<Op>, u: Token)
    requires Usable(db, t) && !IssuesFor(ops, db.tokens[t].user)
    ensures var id := db.tokens[t].user; var db' := AfterConsume(db, t, hash); var end := Run(db', ops);
            && (Usable(end, u) ==> end.tokens[u].user != id)
            && db'.users[id].version == db.users[id].version + 1 && db'.users[id].hash == hash
            && db'.users - {id} == db.users - {id}
  {
    NoUnusedUntilIssue(AfterConsume(db, t, hash), ops, db.tokens[t].user, u);
  }

  // ---- what a link is worth -----------------------------------------------------------------

  /** Only 43 characters of base64url ever work. */
  lemma OnlyWellFormedLinksWork(db: Db, t: Token, i: nat)
    requires Usable(db, t) && i < |t|
    ensures |t| == 43
    ensures 'A' <= t[i] <= 'Z' || 'a' <= t[i] <= 'z' || '0' <= t[i] <= '9' || t[i] == '_' || t[i] == '-'
  {
  }

  lemma TwoOps(db: Db, a: Op, b: Op)
    ensures Run(db, [a, b]) == Apply(Apply(db, a), b)
  {
    assert [a, b][1..] == [b] && [b][1..] == [];
    assert Run(Apply(db, a), [b]) == Run(Apply(Apply(db, a), b), []);
  }

  /** A fresh link works for exactly half an hour, and for an active user only. */
  lemma FreshLinkWorksExactly(db: Db, user: UserId, t: Token, secs: nat)
    requires user in db.users && t !in db.issued && WellFormed(t)
    ensures Usable(Run(db, [Issue(user, t), Tick(secs)]), t) <==> db.users[user].active && secs < 1800
  {
    TwoOps(db, Issue(user, t), Tick(secs));
  }

  /** Issuing a link ends the user's other links, forgets exactly those that ran
      out more than a day ago, and touches nobody's account. */
  lemma IssueDoes(db: Db, user: UserId, t: Token, u: Token)
    requires user in db.users && t !in db.issued && db.tokens.Keys <= db.issued && u in db.tokens
    ensures var db' := AfterIssue(db, user, t);
            && db'.users == db.users && t in db'.tokens && db'.tokens[t].user == user
            && (u in db'.tokens <==> db.tokens[u].expires >= db.now - 86_400)
            && (u in db'.tokens ==>
                  && db'.tokens[u].user == db.tokens[u].user && db'.tokens[u].expires == db.tokens[u].expires
                  && (db'.tokens[u].used <==> db.tokens[u].used || db.tokens[u].user == user))
  {
  }

  /** Forgetting takes no link anybody could still use. */
  lemma PurgeTakesNothingUsable(db: Db, t: Token)
    requires Usable(db, t)
    ensures t in Purged(db.tokens, db.now)
  {
  }

  /** A link that is used sets exactly its user's password, signs the user out,
      and ends all of the user's links; an unusable one does nothing. */
  lemma ConsumeDoes(db: Db, t: Token, hash: Hash)
    ensures var db' := AfterConsume(db, t, hash);
            if Usable(db, t) then
              var id := db.tokens[t].user;
              var row := db.users[id];
              && db'.users == db.users[id := User(row.role, row.active, row.email, hash, row.version + 1)]
              && db'.tokens.Keys == db.tokens.Keys && !Usable(db', t)
              && forall u :: u in db.tokens ==>
                   && db'.tokens[u].user == db.tokens[u].user && db'.tokens[u].expires == db.tokens[u].expires
                   && (db'.tokens[u].used <==> db.tokens[u].used || db.tokens[u].user == id)
            else db' == db
  {
  }
}
