/**
 The report query builder: filters plus an ACL become WHERE clauses, one that
 picks legs (counting sessions) and one that picks sessions and then takes
 every leg of them (the session rows and the billing summary).
 */
module Reports {
  import opened Options
  import opened LocalDates
  import opened Sql
  import opened Acl

  /** Missing and empty both mean "no narrowing". */
  datatype Filters = Filters(
    fromTs: Option<int>,               // an instant
    toTs: Option<int>,                 // a day, inclusive
    msisdn: Option<string>, sessionId: Option<string>,
    operators: Option<seq<string>>, shortcodeIds: Option<seq<int>>,
    errorClass: Option<string>)

  predicate Given(s: Option<string>) { s.Some? && s.value != "" }

  predicate NonEmpty<T(==)>(s: Option<seq<T>>) { s.Some? && s.value != [] }

  // ---- what the filters mean ----------------------------------------------------------

  predicate InRange(f: Filters, pad: nat, leg: Row, db: Database)
    requires leg.Leg?
  {
    && (f.fromTs.Some? ==> leg.ts >= f.fromTs.value - pad * MICROS)
    && (f.toTs.Some? ==> leg.ts < db.MidnightMicros(f.toTs.value + 1) + pad * MICROS)
  }

  /** With the database session in Tanzanian time, the dates of a range are
      Tanzanian days: each starts at 21:00 UTC and ends a day later. */
  lemma DatesAreLocalDays(legs: seq<Row>, day: int)
    ensures var db := Database(legs, 10_800);
            db.MidnightMicros(day) == DayStart(day) && db.MidnightMicros(1) == 75_600_000_000
  {
  }

  predicate ErrorFits(f: Filters, leg: Row)
    requires leg.Leg?
  {
    match f.errorClass
    case None => true
    case Some(e) =>
      if e == "" || e == "any" then true
      else if e == "ok" then leg.errorClass.None?
      else if e == "error" then leg.errorClass.Some?
      else leg.errorClass == Some(e)
  }

  predicate LegMatches(f: Filters, acl: ShortcodeAcl, pad: nat, leg: Row, db: Database) {
    && leg.Leg? && Sees(acl, leg) && InRange(f, pad, leg, db)
    && (f.msisdn.Some? && f.msisdn.value != "" ==> leg.msisdn == f.msisdn)
    && (f.sessionId.Some? && f.sessionId.value != "" ==> leg.sessionId == f.sessionId.value)
    && (f.operators.Some? && f.operators.value != [] ==> leg.operator in f.operators.value)
    && (f.shortcodeIds.Some? && f.shortcodeIds.value != [] ==>
          leg.shortcodeId.Some? && leg.shortcodeId.value in f.shortcodeIds.value)
    && ErrorFits(f, leg)
  }

  function ByError(errorClass: string): Filters { Filters(None, None, None, None, None, None, Some(errorClass)) }

  /** With nothing but an error class picked: "ok" takes the legs without one,
      "error" those with one, "any" and the empty text all, any other text those
      with just that class. */
  lemma ErrorClassPicks(e: string, leg: Row, db: Database)
    requires leg.Leg?
    ensures LegMatches(ByError("ok"), None, 0, leg, db) <==> leg.errorClass == None
    ensures LegMatches(ByError("error"), None, 0, leg, db) <==> leg.errorClass != None
    ensures LegMatches(ByError("any"), None, 0, leg, db) && LegMatches(ByError(""), None, 0, leg, db)
    ensures e != "ok" && e != "error" && e != "any" && e != "" ==>
              (LegMatches(ByError(e), None, 0, leg, db) <==> leg.errorClass == Some(e))
  {
  }

  predicate SelectsSessionsByLeg(f: Filters) {
    || Given(f.msisdn) || Given(f.sessionId) || NonEmpty(f.shortcodeIds)
    || (Given(f.errorClass) && f.errorClass.value != "any")
  }

  const SESSION_EDGE_PAD_SECS: nat := 3600

  /** The filters every leg of a session shares. */
  function Shared(f: Filters): Filters { Filters(f.fromTs, f.toTs, None, None, f.operators, None, None) }

  // ---- compiling ------------------------------------------------------------------------

  /** The filters in the order legConds pushes them, up to `stage`. */
  predicate UpTo(stage: nat, f: Filters, acl: ShortcodeAcl, pad: nat, leg: Row, db: Database) {
    && leg.Leg?
    && (stage >= 1 ==> Sees(acl, leg))
    && (stage >= 2 && f.fromTs.Some? ==> leg.ts >= f.fromTs.value - pad * MICROS)
    && (stage >= 3 && f.toTs.Some? ==> leg.ts < db.MidnightMicros(f.toTs.value + 1) + pad * MICROS)
    && (stage >= 4 && Given(f.msisdn) ==> leg.msisdn == f.msisdn)
    && (stage >= 5 && Given(f.sessionId) ==> leg.sessionId == f.sessionId.value)
    && (stage >= 6 && NonEmpty(f.operators) ==> leg.operator in f.operators.value)
    && (stage >= 7 && NonEmpty(f.shortcodeIds) ==>
          leg.shortcodeId.Some? && leg.shortcodeId.value in f.shortcodeIds.value)
    && (stage >= 8 ==> ErrorFits(f, leg))
  }

  /** The conditions pushed so far say exactly what the filters up to `stage` say. */
  ghost predicate Mean(conds: seq<Cond>, params: seq<Value>, stage: nat, f: Filters, acl: ShortcodeAcl, pad: nat) {
    && AllScoped(conds, |params|)
    && forall leg: Row, db: Database :: leg.Leg? ==>
          (AllHold(conds, params, leg, db) <==> UpTo(stage, f, acl, pad, leg, db))
  }

  lemma AllHoldSnoc(conds: seq<Cond>, c: Cond, params: seq<Value>, leg: Row, db: Database)
    ensures AllHold(conds + [c], params, leg, db) <==> AllHold(conds, params, leg, db) && Holds(c, params, leg, db)
  {
    var cs := conds + [c];
    if AllHold(cs, params, leg, db) {
      assert Holds(cs[|conds|], params, leg, db);
      forall i | 0 <= i < |conds| ensures Holds(conds[i], params, leg, db) { assert Holds(cs[i], params, leg, db); }
    }
  }

  lemma AllHoldLater(conds: seq<Cond>, params: seq<Value>, more: seq<Value>, leg: Row, db: Database)
    requires AllScoped(conds, |params|) && params <= more
    ensures AllScoped(conds, |more|) && (AllHold(conds, params, leg, db) <==> AllHold(conds, more, leg, db))
  {
    LaterParamsAll(conds, |params|, params, more, leg, db);
    EvalAllYes(conds, params, leg, db);
    EvalAllYes(conds, more, leg, db);
  }

  lemma ScopedSnoc(conds: seq<Cond>, c: Cond, n: nat)
    requires AllScoped(conds, n) && Scoped(c, n)
    ensures AllScoped(conds + [c], n)
  {
    AllScopedAt(conds, n);
    AllScopedAt(conds + [c], n);
  }

  ghost predicate Adds(c: Cond, params: seq<Value>, n: nat, f: Filters, acl: ShortcodeAcl, pad: nat) {
    forall leg: Row, db: Database :: UpTo(n, f, acl, pad, leg, db)
      ==> (Holds(c, params, leg, db) <==> UpTo(n + 1, f, acl, pad, leg, db))
  }

  /** The condition for the next filter, pushed with the parameters it needs. */
  lemma Push(conds: seq<Cond>, params: seq<Value>, n: nat, f: Filters, acl: ShortcodeAcl, pad: nat, c: Cond,
      more: seq<Value>)
    requires Mean(conds, params, n, f, acl, pad) && params <= more && Scoped(c, |more|) && Adds(c, more, n, f, acl, pad)
    ensures Mean(conds + [c], more, n + 1, f, acl, pad)
  {
    forall leg: Row, db: Database | leg.Leg?
      ensures AllHold(conds + [c], more, leg, db) <==> UpTo(n + 1, f, acl, pad, leg, db)
    {
      AllHoldSnoc(conds, c, more, leg, db);
      AllHoldLater(conds, params, more, leg, db);
      assert AllHold(conds, params, leg, db) <==> UpTo(n, f, acl, pad, leg, db);
    }
    AllHoldLater(conds, params, more, Bucket(0, None), Database([], 0));
    ScopedSnoc(conds, c, |more|);
  }

  /** A filter that is not set adds nothing. */
  lemma Skip(conds: seq<Cond>, params: seq<Value>, n: nat, f: Filters, acl: ShortcodeAcl, pad: nat)
    requires Mean(conds, params, n, f, acl, pad)
    requires forall leg: Row, db: Database :: UpTo(n, f, acl, pad, leg, db) ==> UpTo(n + 1, f, acl, pad, leg, db)
    ensures Mean(conds, params, n + 1, f, acl, pad)
  {
    forall leg: Row, db: Database | leg.Leg?
      ensures AllHold(conds, params, leg, db) <==> UpTo(n + 1, f, acl, pad, leg, db)
    {
      assert AllHold(conds, params, leg, db) <==> UpTo(n, f, acl, pad, leg, db);
    }
  }

  /** The access-control condition, when there is an allowlist at all. */
  method PushAcl(f: Filters, acl: ShortcodeAcl, params: seq<Value>, pad: nat)
      returns (conds: seq<Cond>, out: seq<Value>)
    ensures params <= out && Mean(conds, out, 1, f, acl, pad) && (acl.Some? ==> conds != [])
  {
    conds, out := [], params;
    assert Mean(conds, out, 0, f, acl, pad);
    if acl.Some? {
      var c, more := AclClause(acl, ByTs, out);
      assert Adds(c, more, 0, f, acl, pad) by {
        assert forall leg: Row :: leg.Leg? ==> Fits(ByTs, leg);
      }
      Push(conds, out, 0, f, acl, pad, c, more);
      conds, out := conds + [c], more;
    } else {
      Skip(conds, out, 0, f, acl, pad);
    }
  }

  /** The date range, widened by `pad` seconds on both sides. */
  method PushRange(f: Filters, ghost acl: ShortcodeAcl, conds0: seq<Cond>, params: seq<Value>, pad: nat)
      returns (conds: seq<Cond>, out: seq<Value>)
    requires Mean(conds0, params, 1, f, acl, pad)
    ensures params <= out && Mean(conds, out, 3, f, acl, pad) && |conds0| <= |conds|
  {
    conds, out := conds0, params;
    if f.fromTs.Some? {
      var more := out + [Instant(f.fromTs.value)];
      Push(conds, out, 1, f, acl, pad, TsFrom(|more|, pad), more);
      conds, out := conds + [TsFrom(|more|, pad)], more;
    } else {
      Skip(conds, out, 1, f, acl, pad);
    }
    if f.toTs.Some? {
      var more := out + [Date(f.toTs.value)];
      Push(conds, out, 2, f, acl, pad, TsBeforeEnd(|more|, pad), more);
      conds, out := conds + [TsBeforeEnd(|more|, pad)], more;
    } else {
      Skip(conds, out, 2, f, acl, pad);
    }
  }

  /** Exact matches on subscriber and session. */
  method PushExact(f: Filters, ghost acl: ShortcodeAcl, conds0: seq<Cond>, params: seq<Value>, ghost pad: nat)
      returns (conds: seq<Cond>, out: seq<Value>)
    requires Mean(conds0, params, 3, f, acl, pad)
    ensures params <= out && Mean(conds, out, 5, f, acl, pad) && |conds0| <= |conds|
    ensures Given(f.msisdn) || Given(f.sessionId) ==> conds != []
  {
    conds, out := conds0, params;
    if Given(f.msisdn) {
      var more := out + [Text(f.msisdn.value)];
      Push(conds, out, 3, f, acl, pad, TextIs(Msisdn, |more|), more);
      conds, out := conds + [TextIs(Msisdn, |more|)], more;
    } else {
      Skip(conds, out, 3, f, acl, pad);
    }
    if Given(f.sessionId) {
      var more := out + [Text(f.sessionId.value)];
      Push(conds, out, 4, f, acl, pad, TextIs(SessionId, |more|), more);
      conds, out := conds + [TextIs(SessionId, |more|)], more;
    } else {
      Skip(conds, out, 4, f, acl, pad);
    }
  }

  /** Picked operators and shortcodes. */
  method PushPicked(f: Filters, ghost acl: ShortcodeAcl, conds0: seq<Cond>, params: seq<Value>, ghost pad: nat)
      returns (conds: seq<Cond>, out: seq<Value>)
    requires Mean(conds0, params, 5, f, acl, pad)
    ensures params <= out && Mean(conds, out, 7, f, acl, pad) && |conds0| <= |conds|
    ensures NonEmpty(f.shortcodeIds) ==> conds != []
  {
    conds, out := conds0, params;
    if NonEmpty(f.operators) {
      var more := out + [Texts(f.operators.value)];
      Push(conds, out, 5, f, acl, pad, OperatorAny(|more|), more);
      conds, out := conds + [OperatorAny(|more|)], more;
    } else {
      Skip(conds, out, 5, f, acl, pad);
    }
    if NonEmpty(f.shortcodeIds) {
      var more := out + [Ints(f.shortcodeIds.value)];
      Push(conds, out, 6, f, acl, pad, ShortcodeAny(|more|), more);
      conds, out := conds + [ShortcodeAny(|more|)], more;
    } else {
      Skip(conds, out, 6, f, acl, pad);
    }
  }

  method PushError(f: Filters, ghost acl: ShortcodeAcl, conds0: seq<Cond>, params: seq<Value>, ghost pad: nat)
      returns (conds: seq<Cond>, out: seq<Value>)
    requires Mean(conds0, params, 7, f, acl, pad)
    ensures params <= out && Mean(conds, out, 8, f, acl, pad) && |conds0| <= |conds|
    ensures Given(f.errorClass) && f.errorClass.value != "any" ==> conds != []
  {
    conds, out := conds0, params;
    if f.errorClass == Some("ok") {
      Push(conds, out, 7, f, acl, pad, ErrorIsNull, out);
      conds := conds + [ErrorIsNull];
    } else if f.errorClass == Some("error") {
      Push(conds, out, 7, f, acl, pad, ErrorIsNotNull, out);
      conds := conds + [ErrorIsNotNull];
    } else if Given(f.errorClass) && f.errorClass.value != "any" {
      var more := out + [Text(f.errorClass.value)];
      Push(conds, out, 7, f, acl, pad, TextIs(ErrorClass, |more|), more);
      conds, out := conds + [TextIs(ErrorClass, |more|)], more;
    } else {
      Skip(conds, out, 7, f, acl, pad);
    }
  }

  /** The leg-level predicates, over a caller-owned parameter list. */
  method LegConds(f: Filters, acl: ShortcodeAcl, params: seq<Value>, pad: nat)
      returns (conds: seq<Cond>, out: seq<Value>)
    ensures params <= out && AllScoped(conds, |out|)
    ensures forall leg: Row, db: Database :: leg.Leg? ==>
        (AllHold(conds, out, leg, db) <==> LegMatches(f, acl, pad, leg, db))
    ensures SelectsSessionsByLeg(f) ==> conds != []
  {
    conds, out := PushAcl(f, acl, params, pad);
    conds, out := PushRange(f, acl, conds, out, pad);
    conds, out := PushExact(f, acl, conds, out, pad);
    conds, out := PushPicked(f, acl, conds, out, pad);
    conds, out := PushError(f, acl, conds, out, pad);
    assert forall leg: Row, db: Database :: UpTo(8, f, acl, pad, leg, db) <==> LegMatches(f, acl, pad, leg, db);
  }

  // ---- the two WHERE clauses ----------------------------------------------------------------

  /** Conditions joined by AND, with their parameters; no conditions is no WHERE. */
  datatype Where = Where(conds: seq<Cond>, params: seq<Value>) {
    predicate Keeps(leg: Row, db: Database) { leg.Leg? && AllHold(conds, params, leg, db) }
  }

  method BuildWhere(f: Filters, acl: ShortcodeAcl) returns (w: Where)
    ensures forall leg: Row, db: Database :: leg.Leg? ==> (w.Keeps(leg, db) <==> LegMatches(f, acl, 0, leg, db))
    ensures SelectsSessionsByLeg(f) ==> w.conds != []
  {
    var conds, params := LegConds(f, acl, [], 0);
    w := Where(conds, params);
  }

  /** Some leg of the same session matches the filters. */
  predicate SessionSelected(f: Filters, acl: ShortcodeAcl, leg: Row, db: Database) {
    exists i :: 0 <= i < |db.legs| && SameSession(db.legs[i], leg) && LegMatches(f, acl, 0, db.legs[i], db)
  }

  /** What the session view aggregates: every visible leg of a selected session
      that fits the operators and the padded range; with nothing that picks
      single legs, simply the matching legs. */
  predicate InSessionView(f: Filters, acl: ShortcodeAcl, leg: Row, db: Database) {
    if SelectsSessionsByLeg(f)
    then LegMatches(Shared(f), acl, SESSION_EDGE_PAD_SECS, leg, db) && SessionSelected(f, acl, leg, db)
    else LegMatches(f, acl, 0, leg, db)
  }

  /** Some filter looks at single legs: a subscriber, a session, short codes, or
      an error class that is neither missing, empty nor "any". */
  predicate PicksLegs(f: Filters) {
    || (f.msisdn.Some? && f.msisdn.value != "")
    || (f.sessionId.Some? && f.sessionId.value != "")
    || (f.shortcodeIds.Some? && f.shortcodeIds.value != [])
    || (f.errorClass.Some? && f.errorClass.value != "" && f.errorClass.value != "any")
  }

  /** The leg is visible, of the operators asked for, and in the range widened
      by this many seconds on both sides. */
  predicate FitsSession(f: Filters, acl: ShortcodeAcl, secs: nat, leg: Row, db: Database) {
    && leg.Leg? && Sees(acl, leg)
    && (f.operators.Some? && f.operators.value != [] ==> leg.operator in f.operators.value)
    && (f.fromTs.Some? ==> leg.ts >= f.fromTs.value - secs * 1_000_000)
    && (f.toTs.Some? ==> leg.ts < db.MidnightMicros(f.toTs.value + 1) + secs * 1_000_000)
  }

  /** The i-th leg of the table belongs to the leg's session and matches. */
  predicate MatchesFor(f: Filters, acl: ShortcodeAcl, leg: Row, db: Database, i: int) {
    && 0 <= i < |db.legs| && db.legs[i].Leg? && leg.Leg?
    && db.legs[i].sessionId == leg.sessionId && db.legs[i].operator == leg.operator
    && LegMatches(f, acl, 0, db.legs[i], db)
  }

  ghost predicate HasMatch(f: Filters, acl: ShortcodeAcl, leg: Row, db: Database) {
    exists i :: MatchesFor(f, acl, leg, db, i)
  }

  lemma SelectsExactly(f: Filters)
    ensures SelectsSessionsByLeg(f) <==> PicksLegs(f)
  {
  }

  /** The view, spelt out: with a filter on single legs, the whole of every
      session with a matching leg, as far as it is visible and within an hour of
      the range; without one, what is visible within the range itself. */
  lemma ViewExactly(f: Filters, acl: ShortcodeAcl, leg: Row, db: Database)
    ensures PicksLegs(f) ==>
              (InSessionView(f, acl, leg, db) <==> HasMatch(f, acl, leg, db) && FitsSession(f, acl, 3600, leg, db))
    ensures !PicksLegs(f) ==> (InSessionView(f, acl, leg, db) <==> FitsSession(f, acl, 0, leg, db))
  {
    SelectsExactly(f);
    if HasMatch(f, acl, leg, db) {
      var i :| MatchesFor(f, acl, leg, db, i);
      assert SameSession(db.legs[i], leg);
    }
    if SessionSelected(f, acl, leg, db) {
      var i :| 0 <= i < |db.legs| && SameSession(db.legs[i], leg) && LegMatches(f, acl, 0, db.legs[i], db);
      assert MatchesFor(f, acl, leg, db, i);
    }
  }

  /** The sub-select keeps its meaning under the longer parameter list. */
  lemma SemiJoinMeans(selected: seq<Cond>, inner: seq<Value>, params: seq<Value>, f: Filters, acl: ShortcodeAcl,
      leg: Row, db: Database)
    requires leg.Leg? && AllScoped(selected, |inner|) && inner <= params
    requires forall l: Row :: l.Leg? ==> (AllHold(selected, inner, l, db) <==> LegMatches(f, acl, 0, l, db))
    ensures Holds(SessionIn(selected), params, leg, db) <==> SessionSelected(f, acl, leg, db)
  {
    forall i | 0 <= i < |db.legs| && db.legs[i].Leg?
      ensures EvalAll(selected, params, db.legs[i], db) == Yes <==> LegMatches(f, acl, 0, db.legs[i], db)
    {
      EvalAllYes(selected, params, db.legs[i], db);
      AllHoldLater(selected, inner, params, db.legs[i], db);
    }
  }

  /** Whatever the filters, a session with a matching leg is kept whole within the
      range; with a filter on single legs also within an hour of it, and nothing
      else is; without one, nothing outside the range is. */
  method BuildSessionWhere(f: Filters, acl: ShortcodeAcl) returns (w: Where)
    ensures forall leg: Row, db: Database :: leg.Leg? ==> (w.Keeps(leg, db) <==> InSessionView(f, acl, leg, db))
    ensures forall leg: Row, db: Database ::
              HasMatch(f, acl, leg, db) && FitsSession(f, acl, 0, leg, db) ==> w.Keeps(leg, db)
    ensures PicksLegs(f) ==> forall leg: Row, db: Database ::
              w.Keeps(leg, db) <==> HasMatch(f, acl, leg, db) && FitsSession(f, acl, 3600, leg, db)
    ensures !PicksLegs(f) ==> forall leg: Row, db: Database ::
              w.Keeps(leg, db) <==> FitsSession(f, acl, 0, leg, db)
    ensures PicksLegs(f) ==>
        exists sub :: w.conds != [] && w.conds[|w.conds| - 1] == SessionIn(sub) && sub != []
  {
    SelectsExactly(f);
    forall leg: Row, db: Database
      ensures PicksLegs(f) ==>
                (InSessionView(f, acl, leg, db) <==> HasMatch(f, acl, leg, db) && FitsSession(f, acl, 3600, leg, db))
      ensures !PicksLegs(f) ==> (InSessionView(f, acl, leg, db) <==> FitsSession(f, acl, 0, leg, db))
    {
      ViewExactly(f, acl, leg, db);
    }
    if !SelectsSessionsByLeg(f) {
      w := BuildWhere(f, acl);
      return;
    }
    var selected, inner := LegConds(f, acl, [], 0);
    var outer, params := LegConds(Shared(f), acl, inner, SESSION_EDGE_PAD_SECS);
    w := Where(outer + [SessionIn(selected)], params);
    forall leg: Row, db: Database | leg.Leg?
      ensures w.Keeps(leg, db) <==> InSessionView(f, acl, leg, db)
    {
      AllHoldSnoc(outer, SessionIn(selected), params, leg, db);
      SemiJoinMeans(selected, inner, params, f, acl, leg, db);
    }
  }

  // ---- the two views agree ---------------------------------------------------------------------

  function SessionKey(leg: Row): (string, string)
    requires leg.Leg?
  {
    (leg.sessionId, leg.operator)
  }

  /** SELECT DISTINCT session_id, operator_name ... WHERE w */
  function Keys(w: Where, db: Database): set<(string, string)> {
    set i | 0 <= i < |db.legs| && w.Keeps(db.legs[i], db) :: SessionKey(db.legs[i])
  }

  lemma WiderRange(f: Filters, acl: ShortcodeAcl, leg: Row, db: Database)
    requires LegMatches(f, acl, 0, leg, db)
    ensures LegMatches(Shared(f), acl, SESSION_EDGE_PAD_SECS, leg, db)
  {
  }

  lemma ViewsAgree(f: Filters, acl: ShortcodeAcl, legs: Where, sessions: Where, db: Database)
    requires forall leg: Row :: leg.Leg? ==> (legs.Keeps(leg, db) <==> LegMatches(f, acl, 0, leg, db))
    requires forall leg: Row :: leg.Leg? ==> (sessions.Keeps(leg, db) <==> InSessionView(f, acl, leg, db))
    ensures Keys(legs, db) == Keys(sessions, db)
  {
    forall k | k in Keys(legs, db) ensures k in Keys(sessions, db) {
      var i :| 0 <= i < |db.legs| && legs.Keeps(db.legs[i], db) && SessionKey(db.legs[i]) == k;
      WiderRange(f, acl, db.legs[i], db);
      assert SameSession(db.legs[i], db.legs[i]);
      assert sessions.Keeps(db.legs[i], db);
    }
    forall k | k in Keys(sessions, db) ensures k in Keys(legs, db) {
      var i :| 0 <= i < |db.legs| && sessions.Keeps(db.legs[i], db) && SessionKey(db.legs[i]) == k;
      if SelectsSessionsByLeg(f) {
        var j :| 0 <= j < |db.legs| && SameSession(db.legs[j], db.legs[i]) && LegMatches(f, acl, 0, db.legs[j], db);
        assert legs.Keeps(db.legs[j], db) && SessionKey(db.legs[j]) == k;
      } else {
        assert legs.Keeps(db.legs[i], db);
      }
    }
  }

  predicate HasMatchingLeg(f: Filters, acl: ShortcodeAcl, key: (string, string), db: Database) {
    exists i :: 0 <= i < |db.legs| && LegMatches(f, acl, 0, db.legs[i], db) &&
      db.legs[i].sessionId == key.0 && db.legs[i].operator == key.1
  }

  const COUNT_CAP: nat := 10_000

  /** loadSessionPage: the bounded count comes from the rollup when it has one and
      else from one clause, the rows from the other, and the two clauses speak of
      the same sessions. */
  method LoadSessionPage(f: Filters, acl: ShortcodeAcl, rollup: Option<nat>, db: Database)
    returns (sessions: set<(string, string)>, totalKnown: nat, totalCapped: bool)
    ensures forall k :: k in sessions <==> HasMatchingLeg(f, acl, k, db)
    ensures totalCapped <==> rollup.GetOr(|sessions|) > 10_000
    ensures totalKnown == if totalCapped then 10_000 else rollup.GetOr(|sessions|)
  {
    var legs := BuildWhere(f, acl);
    var rows := BuildSessionWhere(f, acl);
    ViewsAgree(f, acl, legs, rows, db);
    if rollup.Some? {
      totalCapped := rollup.value > COUNT_CAP;
      totalKnown := if totalCapped then COUNT_CAP else rollup.value;
    } else {
      var distinct := |Keys(legs, db)|;
      var rawCount := if distinct > COUNT_CAP + 1 then COUNT_CAP + 1 else distinct;   // LIMIT COUNT_CAP + 1
      totalCapped := rawCount > COUNT_CAP;
      totalKnown := if totalCapped then COUNT_CAP else rawCount;
    }
    sessions := Keys(rows, db);
    forall k
      ensures k in sessions <==> HasMatchingLeg(f, acl, k, db)
    {
      if k in sessions {
        assert k in Keys(legs, db);
        var i :| 0 <= i < |db.legs| && legs.Keeps(db.legs[i], db) && SessionKey(db.legs[i]) == k;
        assert LegMatches(f, acl, 0, db.legs[i], db);
      }
      if i :| 0 <= i < |db.legs| && LegMatches(f, acl, 0, db.legs[i], db) && SessionKey(db.legs[i]) == k {
        assert legs.Keeps(db.legs[i], db);
        assert k in Keys(legs, db);
      }
    }
  }
}
