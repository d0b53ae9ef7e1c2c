/**
 The live-session table `ussd_active_sessions` and the statements that touch
 it.  Time is in microseconds, limits are in seconds.
 */
module SessionCache {
  import opened Options
  import opened ExpiryConfig

  type OpId = nat
  type Key = (string, OpId)

  const SECOND := 1_000_000

  datatype Row = Row(serviceCode: string, shortcodeId: Option<int>, msisdn: string, ussdString: string, lastSeen: int)

  /** ON CONFLICT (session_id, operator_id) DO UPDATE: service_code,
      shortcode_id and msisdn of a live row stay what they were. */
  function Upserted(rows: map<Key, Row>, key: Key, row: Row): map<Key, Row> {
    if key in rows then rows[key := rows[key].(ussdString := row.ussdString, lastSeen := row.lastSeen)]
    else rows[key := row]
  }

  /** idle limit < age <= max age, for a row of a known operator. */
  predicate Expired(c: Config, ops: map<OpId, string>, now: int, key: Key, row: Row) {
    && key.1 in ops
    && row.lastSeen < now - c.SqlLimit(ops[key.1]) * SECOND
    && row.lastSeen >= now - c.maxAge * SECOND
  }

  function Eligible(c: Config, ops: map<OpId, string>, now: int, rows: map<Key, Row>, locked: set<Key>): set<Key> {
    set k | k in rows && k !in locked && Expired(c, ops, now, k, rows[k])
  }

  /** `picked` is a legitimate claim: the oldest min(limit, eligible) of the
      eligible rows nobody else has locked (ties may go either way). */
  predicate IsClaim(c: Config, ops: map<OpId, string>, now: int, rows: map<Key, Row>, locked: set<Key>,
      picked: set<Key>) {
    var eligible := Eligible(c, ops, now, rows, locked);
    && picked <= eligible
    && |picked| == (if c.batch < |eligible| then c.batch else |eligible|)
    && forall p, e :: p in picked && e in eligible - picked ==> rows[p].lastSeen <= rows[e].lastSeen
  }

  datatype ExpiredSession = ExpiredSession(key: Key, operatorName: string, row: Row)

  /** ORDER BY last_seen_at LIMIT n, over rows nobody has locked. */
  method PickOldest(rows: map<Key, Row>, pool: set<Key>, n: nat) returns (picked: set<Key>)
    requires pool <= rows.Keys
    ensures picked <= pool && |picked| == (if n < |pool| then n else |pool|)
    ensures forall p, e :: p in picked && e in pool - picked ==> rows[p].lastSeen <= rows[e].lastSeen
  {
    var rest := pool;
    picked := {};
    while |picked| < n && rest != {}
      invariant picked + rest == pool && picked !! rest && |picked| <= n
      invariant forall p, e :: p in picked && e in rest ==> rows[p].lastSeen <= rows[e].lastSeen
      decreases rest
    {
      OldestExists(rows, rest);
      var k :| k in rest && forall e :: e in rest ==> rows[k].lastSeen <= rows[e].lastSeen;
      picked, rest := picked + {k}, rest - {k};
    }
    assert pool - picked == rest && |pool| == |picked| + |rest|;
  }

  class SessionTable {
    var rows: map<Key, Row>
    const operators: map<OpId, string>

    constructor (operators: map<OpId, string>)
      ensures this.operators == operators && rows == map[]
    {
      this.operators := operators;
      rows := map[];
    }

    method GetActiveSession(key: Key) returns (r: Option<Row>)
      ensures r == if key in rows then Some(rows[key]) else None
    {
      if key in rows { r := Some(rows[key]); } else { r := None; }
    }

    method UpsertActiveSession(key: Key, row: Row)
      modifies this`rows
      ensures rows == Upserted(old(rows), key, row)
    {
      if key in rows {
        rows := rows[key := rows[key].(ussdString := row.ussdString, lastSeen := row.lastSeen)];
      } else {
        rows := rows[key := row];
      }
    }

    method ExpireActiveSession(key: Key)
      modifies this`rows
      ensures rows == old(rows) - {key}
    {
      rows := rows - {key};
    }

    /** The claiming statement, as its plan runs: a range scan below the
        smallest limit, the per-operator filter, then oldest first, skipping
        rows that are locked, until the limit.  A negative LIMIT is an error. */
    method ClaimExpiredSessions(c: Config, now: int, locked: set<Key>) returns (claimed: Option<set<ExpiredSession>>)
      modifies this`rows
      ensures c.batch < 0 <==> claimed.None?
      ensures claimed.None? ==> rows == old(rows)
      ensures claimed.Some? ==>
        var picked := KeysOf(claimed.value);
        && IsClaim(c, operators, now, old(rows), locked, picked)
        && rows == old(rows) - picked
        && forall e :: e in claimed.value ==>
             e.key in old(rows) && e.row == old(rows)[e.key] &&
             e.key.1 in operators && e.operatorName == operators[e.key.1]
    {
      if c.batch < 0 { return None; }
      var minIdle := MinIdle(c);
      var scanned := set k | k in rows && rows[k].lastSeen < now - minIdle * SECOND;
      var pool := set k | k in scanned && k.1 in operators
                          && rows[k].lastSeen < now - c.SqlLimit(operators[k.1]) * SECOND
                          && rows[k].lastSeen >= now - c.maxAge * SECOND && k !in locked;
      assert pool == Eligible(c, operators, now, rows, locked);
      var picked := PickOldest(rows, pool, c.batch);
      HeldKeys(operators, rows, picked);
      claimed := Some(Held(operators, rows, picked));
      rows := rows - picked;
    }
  }

  /** What the deleted rows held, with the operator's name joined back on. */
  function Held(ops: map<OpId, string>, rows: map<Key, Row>, picked: set<Key>): set<ExpiredSession> {
    set k | k in picked && k in rows && k.1 in ops :: ExpiredSession(k, ops[k.1], rows[k])
  }

  function KeysOf(es: set<ExpiredSession>): set<Key> { set e | e in es :: e.key }

  lemma HeldKeys(ops: map<OpId, string>, rows: map<Key, Row>, picked: set<Key>)
    requires forall k :: k in picked ==> k in rows && k.1 in ops
    ensures KeysOf(Held(ops, rows, picked)) == picked
  {
    forall k | k in picked ensures k in KeysOf(Held(ops, rows, picked)) {
      assert ExpiredSession(k, ops[k.1], rows[k]) in Held(ops, rows, picked);
    }
  }

  lemma OldestExists(rows: map<Key, Row>, keys: set<Key>)
    requires keys != {} && keys <= rows.Keys
    ensures exists k :: k in keys && forall e :: e in keys ==> rows[k].lastSeen <= rows[e].lastSeen
  {
    var k :| k in keys;
    if keys != {k} {
      OldestExists(rows, keys - {k});
      var m :| m in keys - {k} && forall e :: e in keys - {k} ==> rows[m].lastSeen <= rows[e].lastSeen;
      var w := if rows[k].lastSeen <= rows[m].lastSeen then k else m;
      assert w in keys && forall e :: e in keys ==> rows[w].lastSeen <= rows[e].lastSeen;
    }
  }

  const BACKSTOP_SECS := 60 * 60

  /** What the scheduler's backstop removes, silently. */
  predicate Stale(now: int, row: Row) { row.lastSeen < now - BACKSTOP_SECS * SECOND }

  /** A row the gateway may claim is never one the backstop may remove, for any
      contents of the table, exactly when the claim window ends within the hour
      or is empty for every known operator. */
  lemma WindowAndBackstopDisjointExactly(c: Config, ops: map<OpId, string>)
    ensures (forall now, key: Key, row: Row :: !(Expired(c, ops, now, key, row) && Stale(now, row)))
        <==> c.maxAge <= BACKSTOP_SECS || forall op :: op in ops ==> c.SqlLimit(ops[op]) >= c.maxAge
  {
    if c.maxAge > BACKSTOP_SECS && exists op :: op in ops && c.SqlLimit(ops[op]) < c.maxAge {
      var op :| op in ops && c.SqlLimit(ops[op]) < c.maxAge;
      var row := Row("", None, "", "", -c.maxAge * SECOND);
      assert Expired(c, ops, 0, ("", op), row) && Stale(0, row);
    }
  }
}
