/**
 The SQL predicates the dashboard generates: conditions over a row with
 numbered parameters, evaluated in SQL's three-valued logic.
 */
module Sql {
  import opened Options
  import opened LocalDates

  datatype Value =
    | Ints(ints: seq<int>)          // int[]
    | Texts(texts: seq<string>)     // text[]
    | Text(text: string)
    | Instant(micros: int)          // epoch seconds or a timestamptz
    | Date(day: int)

  /** One leg of ussd_session_logs, or one row of the daily rollup. */
  datatype Row =
    | Leg(ts: int, sessionId: string, operator: string, shortcodeId: Option<int>, msisdn: Option<string>,
        errorClass: Option<string>)
    | Bucket(day: int, shortcodeId: Option<int>)

  datatype TextColumn = Msisdn | SessionId | ErrorClass

  /** `p` is a placeholder number: $1 is the first parameter. */
  datatype Cond =
    | Constant(b: bool)
    | ShortcodeAny(p: nat)                       // shortcode_id = ANY($p::int[])
    | TsFromEpoch(p: nat)                        // ts >= to_timestamp($p)
    | DateFrom(p: nat)                           // date >= $p::date
    | TsFrom(p: nat, pad: nat)                   // ts >= ($p::timestamptz - interval 'pad seconds')
    | TsBeforeEnd(p: nat, pad: nat)              // ts < ($p::date + interval '1 day' + interval 'pad seconds')
    | TextIs(column: TextColumn, p: nat)         // column = $p
    | OperatorAny(p: nat)                        // operator_name = ANY($p::text[])
    | ErrorIsNull
    | ErrorIsNotNull
    | And(conds: seq<Cond>)
    | Or(conds: seq<Cond>)
    | SessionIn(conds: seq<Cond>)                // (session_id, operator_name) IN (SELECT ... WHERE conds)

  datatype Tri = Yes | No | Unknown

  function Known(b: bool): Tri { if b then Yes else No }

  /** The logs table and the time zone of the database session (seconds east). */
  datatype Database = Database(legs: seq<Row>, zone: int) {
    function MidnightMicros(day: int): int { (day * DAY_SECS - zone) * MICROS }
  }

  function TextOf(row: Row, column: TextColumn): Option<string>
    requires row.Leg?
  {
    match column
    case Msisdn => row.msisdn
    case SessionId => Some(row.sessionId)
    case ErrorClass => row.errorClass
  }

  function Param(params: seq<Value>, p: nat): Option<Value> {
    if 1 <= p <= |params| then Some(params[p - 1]) else None
  }

  function Eval(c: Cond, params: seq<Value>, row: Row, db: Database): Tri
    decreases c, 1
  {
    match c
    case Constant(b) => Known(b)
    case ShortcodeAny(p) =>
      (match Param(params, p)
       case Some(Ints(ids)) => if row.shortcodeId.Some? then Known(row.shortcodeId.value in ids) else Unknown
       case _ => Unknown)
    case TsFromEpoch(p) =>
      (match Param(params, p)
       case Some(Instant(t)) => if row.Leg? then Known(row.ts >= t) else Unknown
       case _ => Unknown)
    case DateFrom(p) =>
      (match Param(params, p)
       case Some(Date(d)) => if row.Bucket? then Known(row.day >= d) else Unknown
       case _ => Unknown)
    case TsFrom(p, pad) =>
      (match Param(params, p)
       case Some(Instant(t)) => if row.Leg? then Known(row.ts >= t - pad * MICROS) else Unknown
       case _ => Unknown)
    case TsBeforeEnd(p, pad) =>
      (match Param(params, p)
       case Some(Date(d)) => if row.Leg? then Known(row.ts < db.MidnightMicros(d + 1) + pad * MICROS) else Unknown
       case _ => Unknown)
    case TextIs(column, p) =>
      (match Param(params, p)
       case Some(Text(s)) => if row.Leg? && TextOf(row, column).Some? then Known(TextOf(row, column).value == s)
           else Unknown
       case _ => Unknown)
    case OperatorAny(p) =>
      (match Param(params, p)
       case Some(Texts(ss)) => if row.Leg? then Known(row.operator in ss) else Unknown
       case _ => Unknown)
    case ErrorIsNull => if row.Leg? then Known(row.errorClass.None?) else Unknown
    case ErrorIsNotNull => if row.Leg? then Known(row.errorClass.Some?) else Unknown
    case And(cs) => EvalAll(cs, params, row, db)
    case Or(cs) => EvalAny(cs, params, row, db)
    case SessionIn(cs) =>
      if row.Leg? then
        Known(exists i :: 0 <= i < |db.legs| && SameSession(db.legs[i], row) &&
                          EvalAll(cs, params, db.legs[i], db) == Yes)
      else Unknown
  }

  /** AND: No beats Unknown beats Yes. */
  function EvalAll(cs: seq<Cond>, params: seq<Value>, row: Row, db: Database): Tri
    decreases cs, 0
  {
    if cs == [] then Yes
    else
      var x, y := Eval(cs[0], params, row, db), EvalAll(cs[1..], params, row, db);
      if x == No || y == No then No else if x == Unknown || y == Unknown then Unknown else Yes
  }

  /** OR: Yes beats Unknown beats No. */
  function EvalAny(cs: seq<Cond>, params: seq<Value>, row: Row, db: Database): Tri
    decreases cs, 0
  {
    if cs == [] then No
    else
      var x, y := Eval(cs[0], params, row, db), EvalAny(cs[1..], params, row, db);
      if x == Yes || y == Yes then Yes else if x == Unknown || y == Unknown then Unknown else No
  }

  predicate SameSession(a: Row, b: Row) {
    a.Leg? && b.Leg? && a.sessionId == b.sessionId && a.operator == b.operator
  }

  /** A WHERE keeps the rows for which the condition is Yes. */
  predicate Holds(c: Cond, params: seq<Value>, row: Row, db: Database) { Eval(c, params, row, db) == Yes }

  predicate AllHold(cs: seq<Cond>, params: seq<Value>, row: Row, db: Database) {
    forall i :: 0 <= i < |cs| ==> Holds(cs[i], params, row, db)
  }

  lemma {:induction false} EvalAllYes(cs: seq<Cond>, params: seq<Value>, row: Row, db: Database)
    ensures EvalAll(cs, params, row, db) == Yes <==> AllHold(cs, params, row, db)
    decreases |cs|
  {
    if cs != [] {
      EvalAllYes(cs[1..], params, row, db);
      if AllHold(cs, params, row, db) {
        assert Holds(cs[0], params, row, db);
        assert forall i :: 0 <= i < |cs[1..]| ==> cs[1..][i] == cs[i + 1];
      } else {
        var i :| 0 <= i < |cs| && !Holds(cs[i], params, row, db);
        if i > 0 { assert cs[1..][i - 1] == cs[i]; }
      }
    }
  }

  lemma {:induction false} EvalAnyYes(cs: seq<Cond>, params: seq<Value>, row: Row, db: Database)
    ensures EvalAny(cs, params, row, db) == Yes <==> exists i :: 0 <= i < |cs| && Holds(cs[i], params, row, db)
    decreases |cs|
  {
    if cs != [] {
      EvalAnyYes(cs[1..], params, row, db);
      if i :| 0 <= i < |cs| && Holds(cs[i], params, row, db) {
        if i > 0 { assert cs[1..][i - 1] == cs[i]; }
      }
      if i :| 0 <= i < |cs[1..]| && Holds(cs[1..][i], params, row, db) { assert cs[1..][i] == cs[i + 1]; }
    }
  }

  /** The placeholders of a condition all refer to the first n parameters. */
  predicate Scoped(c: Cond, n: nat)
    decreases c, 1
  {
    match c
    case Constant(_) => true
    case ShortcodeAny(p) => 1 <= p <= n
    case TsFromEpoch(p) => 1 <= p <= n
    case DateFrom(p) => 1 <= p <= n
    case TsFrom(p, _) => 1 <= p <= n
    case TsBeforeEnd(p, _) => 1 <= p <= n
    case TextIs(_, p) => 1 <= p <= n
    case OperatorAny(p) => 1 <= p <= n
    case ErrorIsNull => true
    case ErrorIsNotNull => true
    case And(cs) => AllScoped(cs, n)
    case Or(cs) => AllScoped(cs, n)
    case SessionIn(cs) => AllScoped(cs, n)
  }

  predicate AllScoped(cs: seq<Cond>, n: nat)
    decreases cs, 0
  {
    cs == [] || (Scoped(cs[0], n) && AllScoped(cs[1..], n))
  }

  lemma {:induction false} AllScopedAt(cs: seq<Cond>, n: nat)
    ensures AllScoped(cs, n) <==> forall i :: 0 <= i < |cs| ==> Scoped(cs[i], n)
    decreases |cs|
  {
    if cs != [] {
      AllScopedAt(cs[1..], n);
      assert forall i :: 0 <= i < |cs[1..]| ==> cs[1..][i] == cs[i + 1];
      if forall i :: 0 <= i < |cs| ==> Scoped(cs[i], n) {
        assert Scoped(cs[0], n);
      }
      if AllScoped(cs, n) {
        forall i | 0 <= i < |cs| ensures Scoped(cs[i], n) { if i > 0 { assert cs[i] == cs[1..][i - 1]; } }
      }
    }
  }

  /** Parameters pushed later do not change what a finished condition means. */
  lemma {:induction false} LaterParams(c: Cond, n: nat, params: seq<Value>, more: seq<Value>, row: Row, db: Database)
    requires Scoped(c, n) && n <= |params| && params <= more
    ensures Scoped(c, |more|) && Eval(c, params, row, db) == Eval(c, more, row, db)
    decreases c, 1
  {
    match c
    case And(cs) => LaterParamsAll(cs, n, params, more, row, db);
    case Or(cs) => LaterParamsAll(cs, n, params, more, row, db);
    case SessionIn(cs) =>
      LaterParamsAll(cs, n, params, more, row, db);
      forall i | 0 <= i < |db.legs|
        ensures EvalAll(cs, params, db.legs[i], db) == EvalAll(cs, more, db.legs[i], db)
      {
        LaterParamsAll(cs, n, params, more, db.legs[i], db);
      }
    case _ =>
  }

  lemma {:induction false} LaterParamsAll(cs: seq<Cond>, n: nat, params: seq<Value>, more: seq<Value>, row: Row,
      db: Database)
    requires AllScoped(cs, n) && n <= |params| && params <= more
    ensures AllScoped(cs, |more|)
    ensures EvalAll(cs, params, row, db) == EvalAll(cs, more, row, db)
    ensures EvalAny(cs, params, row, db) == EvalAny(cs, more, row, db)
    decreases cs, 0
  {
    if cs != [] {
      LaterParams(cs[0], n, params, more, row, db);
      LaterParamsAll(cs[1..], n, params, more, row, db);
    }
  }
}
