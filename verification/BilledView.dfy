/**
 The billable summary of a filtered view: the legs the session clause keeps,
 grouped by session and operator, each session billed over all of its legs.
 */
module BilledView {
  import opened Options
  import opened Sql
  import opened Acl
  import opened Reports
  import Billing

  type Key = (string, string)   // session_id, operator_name

  /** The leg is one of this session's. */
  predicate Belongs(leg: Row, key: Key) { leg.Leg? && leg.sessionId == key.0 && leg.operator == key.1 }

  predicate InView(f: Filters, acl: ShortcodeAcl, key: Key, leg: Row, db: Database) {
    Belongs(leg, key) && InSessionView(f, acl, leg, db)
  }

  /** When the session's legs in the view were logged, among the first n legs. */
  function Times(f: Filters, acl: ShortcodeAcl, key: Key, db: Database, n: nat): seq<int>
    requires n <= |db.legs|
  {
    if n == 0 then []
    else Times(f, acl, key, db, n - 1) + if InView(f, acl, key, db.legs[n - 1], db) then [db.legs[n - 1].ts] else []
  }

  lemma {:induction false} TimesHas(f: Filters, acl: ShortcodeAcl, key: Key, db: Database, n: nat, t: int)
    requires n <= |db.legs|
    ensures t in Times(f, acl, key, db, n)
        <==> exists i :: 0 <= i < n && InView(f, acl, key, db.legs[i], db) && db.legs[i].ts == t
  {
    if n > 0 { TimesHas(f, acl, key, db, n - 1, t); }
  }

  /** MAX - MIN of some times. */
  function Span(ts: seq<int>): nat {
    if ts == [] then 0 else Billing.Extremes(ts); Billing.Duration(ts)
  }

  /** How long a session lasts in the view. */
  function SessionMicros(f: Filters, acl: ShortcodeAcl, key: Key, db: Database): nat {
    Span(Times(f, acl, key, db, |db.legs|))
  }

  /** The sessions the filters select: those with a matching leg. */
  function Selected(f: Filters, acl: ShortcodeAcl, db: Database): set<Key> {
    set i | 0 <= i < |db.legs| && LegMatches(f, acl, 0, db.legs[i], db) ::
      (db.legs[i].sessionId, db.legs[i].operator)
  }

  function Durations(f: Filters, acl: ShortcodeAcl, db: Database): map<Key, nat> {
    map key | key in Selected(f, acl, db) :: SessionMicros(f, acl, key, db)
  }

  // ---- the bill of some sessions -----------------------------------------------------------

  ghost function BillOf(ops: Billing.Operators, d: map<Key, nat>): nat
    decreases |d|
  {
    if d == map[] then 0
    else var k :| k in d; Billing.Adds(ops, Billing.Session(k.1, d[k])) + BillOf(ops, d - {k})
  }

  lemma {:induction false} BillWithout(ops: Billing.Operators, d: map<Key, nat>, k: Key)
    requires k in d
    ensures BillOf(ops, d) == Billing.Adds(ops, Billing.Session(k.1, d[k])) + BillOf(ops, d - {k})
    decreases |d|
  {
    var j :| j in d && BillOf(ops, d) == Billing.Adds(ops, Billing.Session(j.1, d[j])) + BillOf(ops, d - {j});
    if j != k {
      BillWithout(ops, d - {j}, k);
      BillWithout(ops, d - {k}, j);
      assert d - {j} - {k} == d - {k} - {j};
    }
  }

  lemma BillOneMore(ops: Billing.Operators, d: map<Key, nat>, k: Key, micros: nat)
    requires k !in d
    ensures BillOf(ops, d[k := micros]) == BillOf(ops, d) + Billing.Adds(ops, Billing.Session(k.1, micros))
  {
    BillWithout(ops, d[k := micros], k);
    assert d[k := micros] - {k} == d;
  }

  /** The sessions of one operator. */
  function Only(d: map<Key, nat>, op: string): map<Key, nat> { map k | k in d && k.1 == op :: d[k] }

  /** What summing a list of sessions must give for one operator. */
  ghost predicate ListsOperator(ops: Billing.Operators, ss: seq<Billing.Session>, d: map<Key, nat>, op: string) {
    && Billing.SessionsOf(ss, op) == |Only(d, op)|
    && (op in ops ==> Billing.Counted(Billing.Group(ops, ss, op)) == BillOf(ops, Only(d, op)))
  }

  ghost predicate Lists(ops: Billing.Operators, ss: seq<Billing.Session>, d: map<Key, nat>) {
    Billing.Total(ops, ss) == BillOf(ops, d) && forall op :: ListsOperator(ops, ss, d, op)
  }

  lemma OnlyOneMore(d: map<Key, nat>, k: Key, micros: nat, op: string)
    requires k !in d
    ensures Only(d[k := micros], op) == if k.1 == op then Only(d, op)[k := micros] else Only(d, op)
  {
  }

  lemma ListsOperatorOneMore(ops: Billing.Operators, ss: seq<Billing.Session>, d: map<Key, nat>, k: Key,
      micros: nat, op: string)
    requires ListsOperator(ops, ss, d, op) && k !in d
    ensures ListsOperator(ops, ss + [Billing.Session(k.1, micros)], d[k := micros], op)
  {
    Billing.OneMore(ss, Billing.Session(k.1, micros), op);
    OnlyOneMore(d, k, micros, op);
    if op == k.1 { BillOneMore(ops, Only(d, op), k, micros); }
  }

  lemma ListsOneMore(ops: Billing.Operators, ss: seq<Billing.Session>, d: map<Key, nat>, k: Key, micros: nat)
    requires Lists(ops, ss, d) && k !in d
    ensures Lists(ops, ss + [Billing.Session(k.1, micros)], d[k := micros])
  {
    var more, d' := ss + [Billing.Session(k.1, micros)], d[k := micros];
    Billing.TotalSnoc(ops, ss, Billing.Session(k.1, micros));
    BillOneMore(ops, d, k, micros);
    forall op ensures ListsOperator(ops, more, d', op) {
      ListsOperatorOneMore(ops, ss, d, k, micros, op);
    }
  }

  // ---- grouping the legs ----------------------------------------------------------------------

  datatype Edges = Edges(first: int, last: int)

  function Widen(e: Option<Edges>, t: int): Edges {
    match e
    case None => Edges(t, t)
    case Some(e) => Edges(if t < e.first then t else e.first, if t > e.last then t else e.last)
  }

  function EdgesOf(ts: seq<int>): Option<Edges> {
    if ts == [] then None else Some(Edges(Billing.Min(ts), Billing.Max(ts)))
  }

  lemma EdgesSnoc(ts: seq<int>, t: int)
    ensures EdgesOf(ts + [t]) == Some(Widen(EdgesOf(ts), t))
  {
    var more := ts + [t];
    assert more[|ts|] == t;
    Billing.Extremes(more);
    if ts != [] {
      Billing.Extremes(ts);
      var last, first := Billing.Max(ts), Billing.Min(ts);
      assert last in more && first in more && t in more;
      assert Billing.Max(more) in ts || Billing.Max(more) == t;
      assert Billing.Min(more) in ts || Billing.Min(more) == t;
    }
  }

  function Get(m: map<Key, Edges>, key: Key): Option<Edges> { if key in m then Some(m[key]) else None }

  /** GROUP BY session and operator over the legs the clause keeps. */
  method GroupLegs(f: Filters, acl: ShortcodeAcl, db: Database) returns (groups: map<Key, Edges>)
    ensures forall key :: Get(groups, key) == EdgesOf(Times(f, acl, key, db, |db.legs|))
  {
    var w := BuildSessionWhere(f, acl);
    groups := map[];
    for n := 0 to |db.legs|
      invariant forall key :: Get(groups, key) == EdgesOf(Times(f, acl, key, db, n))
    {
      var leg := db.legs[n];
      ghost var before := groups;
      if w.Keeps(leg, db) {
        groups := groups[SessionKey(leg) := Widen(Get(groups, SessionKey(leg)), leg.ts)];
      }
      forall key ensures Get(groups, key) == EdgesOf(Times(f, acl, key, db, n + 1)) {
        assert Get(before, key) == EdgesOf(Times(f, acl, key, db, n));
        EdgesSnoc(Times(f, acl, key, db, n), if leg.Leg? then leg.ts else 0);
        assert Times(f, acl, key, db, n) + [] == Times(f, acl, key, db, n);
      }
    }
  }

  /** A session is in the view exactly when it has a matching leg. */
  lemma InViewExactly(f: Filters, acl: ShortcodeAcl, key: Key, db: Database)
    ensures key in Selected(f, acl, db) <==> Times(f, acl, key, db, |db.legs|) != []
  {
    var ts := Times(f, acl, key, db, |db.legs|);
    if key in Selected(f, acl, db) {
      var i :| 0 <= i < |db.legs| && LegMatches(f, acl, 0, db.legs[i], db) &&
        key == (db.legs[i].sessionId, db.legs[i].operator);
      WiderRange(f, acl, db.legs[i], db);
      assert SameSession(db.legs[i], db.legs[i]);
      TimesHas(f, acl, key, db, |db.legs|, db.legs[i].ts);
    }
    if ts != [] {
      assert ts[0] in ts;
      TimesHas(f, acl, key, db, |db.legs|, ts[0]);
      var i :| 0 <= i < |db.legs| && InView(f, acl, key, db.legs[i], db);
      if SelectsSessionsByLeg(f) {
        var j :| 0 <= j < |db.legs| && SameSession(db.legs[j], db.legs[i]) && LegMatches(f, acl, 0, db.legs[j], db);
        assert Belongs(db.legs[j], key);
      }
    }
  }

  lemma GroupsAreDurations(f: Filters, acl: ShortcodeAcl, db: Database, groups: map<Key, Edges>, key: Key)
    requires Get(groups, key) == EdgesOf(Times(f, acl, key, db, |db.legs|))
    ensures key in groups <==> key in Durations(f, acl, db)
    ensures key in groups ==> groups[key].last - groups[key].first == Durations(f, acl, db)[key]
  {
    InViewExactly(f, acl, key, db);
  }

  /** per_session: one row for every group, with its duration. */
  method PerSession(groups: map<Key, Edges>, ghost all: map<Key, nat>, ghost ops: Billing.Operators)
    returns (ss: seq<Billing.Session>)
    requires forall key :: key in groups <==> key in all
    requires forall key :: key in groups ==> groups[key].last - groups[key].first == all[key]
    ensures Lists(ops, ss, all)
  {
    ghost var listed: map<Key, nat> := map[];
    var rest := groups;
    ss := [];
    while rest != map[]
      invariant forall key :: key in rest ==> key in groups && rest[key] == groups[key]
      invariant forall key :: key in groups <==> key in rest || key in listed
      invariant forall key :: key in listed ==> key !in rest && key in all && listed[key] == all[key]
      invariant Lists(ops, ss, listed)
      decreases |rest|
    {
      var key :| key in rest;
      var micros := rest[key].last - rest[key].first;
      ListsOneMore(ops, ss, listed, key, micros);
      ss, listed, rest := ss + [Billing.Session(key.1, micros)], listed[key := micros], rest - {key};
    }
    assert listed == all;
  }

  /** loadBillableSummary, from the legs: every session with a matching leg is
      billed once, for its duration in the view, under its operator. */
  method BillView(f: Filters, acl: ShortcodeAcl, db: Database, ops: Billing.Operators)
    returns (perOperator: map<string, Billing.PerOperator>, total: nat)
    ensures total == BillOf(ops, Durations(f, acl, db))
    ensures forall op :: op in perOperator <==> op in ops && Only(Durations(f, acl, db), op) != map[]
    ensures forall op :: op in perOperator ==>
              (perOperator[op].sessions == |Only(Durations(f, acl, db), op)|
               && (perOperator[op].billableUnits.Some? <==> ops[op].Some?)
               && Billing.Counted(perOperator[op]) == BillOf(ops, Only(Durations(f, acl, db), op)))
  {
    ghost var d := Durations(f, acl, db);
    var groups := GroupLegs(f, acl, db);
    forall key
      ensures (key in groups <==> key in d) && (key in groups ==> groups[key].last - groups[key].first == d[key])
    {
      GroupsAreDurations(f, acl, db, groups, key);
    }
    var ss := PerSession(groups, d, ops);
    perOperator, total := Billing.LoadBillableSummary(ss, ops);
    forall op ensures ListsOperator(ops, ss, d, op) && (Billing.SessionsOf(ss, op) == 0 <==> Only(d, op) == map[]) {
      assert ListsOperator(ops, ss, d, op);
    }
  }

  // ---- what a filter does to a bill -----------------------------------------------------------

  lemma {:induction false} SameView(f: Filters, g: Filters, acl: ShortcodeAcl, key: Key, db: Database, n: nat)
    requires n <= |db.legs|
    requires forall i :: 0 <= i < n ==> (InView(f, acl, key, db.legs[i], db) <==> InView(g, acl, key, db.legs[i], db))
    ensures Times(f, acl, key, db, n) == Times(g, acl, key, db, n)
  {
    if n > 0 { SameView(f, g, acl, key, db, n - 1); }
  }

  /** The view of a selected session under a filter that picks single legs:
      every visible leg within the padded range. */
  lemma SelectedView(f: Filters, acl: ShortcodeAcl, key: Key, leg: Row, db: Database)
    requires PicksLegs(f) && key in Selected(f, acl, db)
    ensures InView(f, acl, key, leg, db)
        <==> Belongs(leg, key) && FitsSession(f, acl, 3600, leg, db)
  {
    var j :| 0 <= j < |db.legs| && LegMatches(f, acl, 0, db.legs[j], db) &&
        key == (db.legs[j].sessionId, db.legs[j].operator);
    if Belongs(leg, key) { assert SameSession(db.legs[j], leg); }
  }

  /** Whichever legs the filters pick a session by, it lasts, and so costs, the same. */
  lemma PickingNeverChangesTheBill(f: Filters, g: Filters, acl: ShortcodeAcl, key: Key, db: Database)
    requires PicksLegs(f) && PicksLegs(g)
    requires f.fromTs == g.fromTs && f.toTs == g.toTs && f.operators == g.operators
    requires key in Selected(f, acl, db) && key in Selected(g, acl, db)
    ensures SessionMicros(f, acl, key, db) == SessionMicros(g, acl, key, db)
  {
    forall i | 0 <= i < |db.legs|
      ensures InView(f, acl, key, db.legs[i], db) <==> InView(g, acl, key, db.legs[i], db)
    {
      SelectedView(f, acl, key, db.legs[i], db);
      SelectedView(g, acl, key, db.legs[i], db);
    }
    SameView(f, g, acl, key, db, |db.legs|);
  }

  /** The same range and operators, and no filter on single legs. */
  function Unpicked(f: Filters): Filters { Filters(f.fromTs, f.toTs, None, None, f.operators, None, None) }

  /** A visible leg of the session outside the range, yet within the padding. */
  predicate HasLegInPadding(f: Filters, acl: ShortcodeAcl, key: Key, db: Database) {
    exists i :: 0 <= i < |db.legs| && InPadding(f, acl, key, db.legs[i], db)
  }

  predicate InPadding(f: Filters, acl: ShortcodeAcl, key: Key, leg: Row, db: Database) {
    Belongs(leg, key) && FitsSession(f, acl, 3600, leg, db) && !FitsSession(f, acl, 0, leg, db)
  }

  lemma InnerTimes(f: Filters, acl: ShortcodeAcl, key: Key, db: Database, t: int)
    requires PicksLegs(f) && key in Selected(f, acl, db)
    ensures t in Times(Unpicked(f), acl, key, db, |db.legs|)
        <==> t in Times(f, acl, key, db, |db.legs|) && InRange(f, 0, Leg(t, "", "", None, None, None), db)
  {
    var n := |db.legs|;
    TimesHas(f, acl, key, db, n, t);
    TimesHas(Unpicked(f), acl, key, db, n, t);
    forall i | 0 <= i < n
      ensures InView(Unpicked(f), acl, key, db.legs[i], db)
          <==> InView(f, acl, key, db.legs[i], db) && InRange(f, 0, db.legs[i], db)
    {
      SelectedView(f, acl, key, db.legs[i], db);
    }
  }

  /** Times cut off at an interval keep their span exactly when none is cut. */
  lemma CutSpanExactly(all: seq<int>, inner: seq<int>, lo: Option<int>, hi: Option<int>)
    requires inner != []
    requires forall t :: t in inner <==> t in all && (lo.Some? ==> t >= lo.value) && (hi.Some? ==> t < hi.value)
    ensures Span(inner) <= Span(all)
    ensures Span(all) == Span(inner) <==> forall t :: t in all ==> t in inner
  {
    var t0 := inner[0];
    assert t0 in inner;
    assert t0 in all;
    Billing.Extremes(all);
    Billing.Extremes(inner);
    if Span(all) != Span(inner) {
      assert !(Billing.Max(all) in inner && Billing.Min(all) in inner);
    }
  }

  /** Next to the unfiltered view, picking a session by its legs never bills it
      for less, and for the same time exactly when the session has no visible
      leg in the hour of padding. */
  lemma UnfilteredAgreesExactly(f: Filters, acl: ShortcodeAcl, key: Key, db: Database)
    requires PicksLegs(f) && key in Selected(f, acl, db)
    ensures SessionMicros(Unpicked(f), acl, key, db) <= SessionMicros(f, acl, key, db)
    ensures SessionMicros(f, acl, key, db) == SessionMicros(Unpicked(f), acl, key, db)
        <==> !HasLegInPadding(f, acl, key, db)
  {
    var n := |db.legs|;
    var all, inner := Times(f, acl, key, db, n), Times(Unpicked(f), acl, key, db, n);
    var lo := f.fromTs;
    var hi := if f.toTs.Some? then Some(db.MidnightMicros(f.toTs.value + 1)) else None;
    forall t ensures t in inner <==> t in all && (lo.Some? ==> t >= lo.value) && (hi.Some? ==> t < hi.value) {
      InnerTimes(f, acl, key, db, t);
    }
    SelectedInShared(f, acl, key, db);
    CutSpanExactly(all, inner, lo, hi);
    CutExactly(f, acl, key, db);
  }

  lemma SelectedInShared(f: Filters, acl: ShortcodeAcl, key: Key, db: Database)
    requires key in Selected(f, acl, db)
    ensures Times(Unpicked(f), acl, key, db, |db.legs|) != []
  {
    var j :| 0 <= j < |db.legs| && LegMatches(f, acl, 0, db.legs[j], db) &&
        key == (db.legs[j].sessionId, db.legs[j].operator);
    assert LegMatches(Unpicked(f), acl, 0, db.legs[j], db);
    InViewExactly(Unpicked(f), acl, key, db);
  }

  lemma CutExactly(f: Filters, acl: ShortcodeAcl, key: Key, db: Database)
    requires PicksLegs(f) && key in Selected(f, acl, db)
    ensures HasLegInPadding(f, acl, key, db)
        <==> exists t :: t in Times(f, acl, key, db, |db.legs|) && t !in Times(Unpicked(f), acl, key, db, |db.legs|)
  {
    var n := |db.legs|;
    var all, inner := Times(f, acl, key, db, n), Times(Unpicked(f), acl, key, db, n);
    if HasLegInPadding(f, acl, key, db) {
      var i :| 0 <= i < n && InPadding(f, acl, key, db.legs[i], db);
      SelectedView(f, acl, key, db.legs[i], db);
      TimesHas(f, acl, key, db, n, db.legs[i].ts);
      InnerTimes(f, acl, key, db, db.legs[i].ts);
    }
    if t :| t in all && t !in inner {
      TimesHas(f, acl, key, db, n, t);
      var i :| 0 <= i < n && InView(f, acl, key, db.legs[i], db) && db.legs[i].ts == t;
      SelectedView(f, acl, key, db.legs[i], db);
      InnerTimes(f, acl, key, db, t);
      assert InPadding(f, acl, key, db.legs[i], db);
    }
  }

  /** A leg one microsecond before the range counts in the filtered view and not
      in the unfiltered one. */
  lemma EdgeLegIsBilledWhenFiltered(session: string, operator: string, f: Filters, db: Database)
    requires session != "" && f == Filters(Some(0), None, None, Some(session), None, None, None)
    requires db == Database([Leg(-1, session, operator, None, None, None),
        Leg(0, session, operator, None, None, None)], 0)
    ensures SessionMicros(f, None, (session, operator), db) != SessionMicros(Unpicked(f), None, (session, operator), db)
  {
    var key := (session, operator);
    assert LegMatches(f, None, 0, db.legs[1], db) && Belongs(db.legs[1], key);
    assert InPadding(f, None, key, db.legs[0], db);
    UnfilteredAgreesExactly(f, None, key, db);
  }
}
