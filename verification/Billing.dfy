/**
 Billing units on top of the session view: a session's duration, the units it
 is billed, and the per-operator summary with its grand total.
 */
module Billing {
  import opened Options

  const MICROS := 1_000_000

  /** operators.billable_window_secs: NULL, or 1..600 (a CHECK constraint). */
  type Window = w: int | 1 <= w <= 600 witness 1

  /** SQL CEIL of a quotient of non-negative numbers. */
  function CeilDiv(a: nat, b: nat): nat
    requires b > 0
  {
    (a + b - 1) / b
  }

  /** GREATEST(1, CEIL(CEIL(duration) / window)), duration in microseconds. */
  function Units(micros: nat, w: Window): nat {
    var units := CeilDiv(CeilDiv(micros, MICROS), w);
    if units < 1 then 1 else units
  }

  lemma CeilDivFits(a: nat, b: nat, n: nat)
    requires b > 0
    ensures CeilDiv(a, b) <= n <==> a <= n * b
  {
    var q := CeilDiv(a, b);
    assert a + b - 1 == q * b + (a + b - 1) % b;
    assert q * b >= a && q * b < a + b;
    if q <= n {
      assert q * b <= n * b;
    } else {
      assert (n + 1) * b <= q * b;
    }
  }

  /** The units are the least n >= 1 windows that cover the exact duration:
      rounding up to whole seconds first changes nothing. */
  lemma UnitsAreLeast(micros: nat, w: Window, n: nat)
    ensures Units(micros, w) <= n <==> 1 <= n && micros <= n * w * 1_000_000
  {
    CeilDivFits(CeilDiv(micros, MICROS), w, n);
    CeilDivFits(micros, MICROS, n * w);
  }

  // ---- sessions -----------------------------------------------------------------------

  function Max(ts: seq<int>): int
    requires ts != []
  {
    if |ts| == 1 then ts[0] else var m := Max(ts[1..]); if ts[0] > m then ts[0] else m
  }

  function Min(ts: seq<int>): int
    requires ts != []
  {
    if |ts| == 1 then ts[0] else var m := Min(ts[1..]); if ts[0] < m then ts[0] else m
  }

  lemma {:induction false} Extremes(ts: seq<int>)
    requires ts != []
    ensures Max(ts) in ts && Min(ts) in ts && forall t :: t in ts ==> Min(ts) <= t <= Max(ts)
  {
    if |ts| > 1 {
      Extremes(ts[1..]);
      assert forall t :: t in ts ==> t == ts[0] || t in ts[1..];
    }
  }

  /** MAX(ts) - MIN(ts) over a session's legs. */
  function Duration(ts: seq<int>): int
    requires ts != []
  {
    Max(ts) - Min(ts)
  }

  /** Legs that turn up late never make a session cheaper. */
  lemma MoreLegsNeverCheaper(ts: seq<int>, more: seq<int>, w: Window)
    requires ts != [] && forall t :: t in ts ==> t in more
    ensures more != [] && 0 <= Duration(ts) <= Duration(more)
    ensures Units(Duration(ts), w) <= Units(Duration(more), w)
  {
    assert ts[0] in ts;
    Extremes(ts);
    Extremes(more);
    UnitsAreLeast(Duration(more), w, Units(Duration(more), w));
    UnitsAreLeast(Duration(ts), w, Units(Duration(more), w));
  }

  // ---- the summary ----------------------------------------------------------------------

  datatype Session = Session(operator: string, micros: nat)

  /** Operators by name; the name is UNIQUE. */
  type Operators = map<string, Option<Window>>

  datatype PerOperator = PerOperator(sessions: nat, billableUnits: Option<nat>)

  /** The billable_units column of a session row (LEFT JOIN operators). */
  function RowUnits(ops: Operators, s: Session): Option<nat> {
    if s.operator in ops && ops[s.operator].Some? then Some(Units(s.micros, ops[s.operator].value)) else None
  }

  /** A row shows units exactly when its operator is registered with a window, and
      then the least number of windows that covers the session. */
  lemma RowUnitsExactly(ops: Operators, s: Session, n: nat)
    ensures RowUnits(ops, s).Some? <==> exists w :: s.operator in ops && ops[s.operator] == Some(w)
    ensures RowUnits(ops, s).Some? ==>
              (RowUnits(ops, s).value <= n <==> 1 <= n && s.micros <= n * ops[s.operator].value * 1_000_000)
  {
    if RowUnits(ops, s).Some? { UnitsAreLeast(s.micros, ops[s.operator].value, n); }
  }

  /** What a session adds to the grand total: its units, 1 when its operator
      bills per session, nothing when the inner JOIN finds no operator. */
  function Adds(ops: Operators, s: Session): nat {
    if s.operator !in ops then 0 else RowUnits(ops, s).GetOr(1)
  }

  function Total(ops: Operators, ss: seq<Session>): nat {
    if ss == [] then 0 else Adds(ops, ss[0]) + Total(ops, ss[1..])
  }

  lemma {:induction false} TotalSnoc(ops: Operators, ss: seq<Session>, s: Session)
    ensures Total(ops, ss + [s]) == Total(ops, ss) + Adds(ops, s)
  {
    if ss == [] {
      assert ss + [s] == [s];
    } else {
      assert (ss + [s])[1..] == ss[1..] + [s];
      TotalSnoc(ops, ss[1..], s);
    }
  }

  function Counted(p: PerOperator): nat { p.billableUnits.GetOr(p.sessions) }

  ghost function SumCounted(m: map<string, PerOperator>): nat
    decreases |m|
  {
    if m == map[] then 0
    else var k :| k in m; Counted(m[k]) + SumCounted(m - {k})
  }

  /** The sum does not depend on the order the operators are taken in. */
  lemma {:induction false} SumWithout(m: map<string, PerOperator>, k: string)
    requires k in m
    ensures SumCounted(m) == Counted(m[k]) + SumCounted(m - {k})
    decreases |m|
  {
    var j :| j in m && SumCounted(m) == Counted(m[j]) + SumCounted(m - {j});
    if j != k {
      SumWithout(m - {j}, k);
      SumWithout(m - {k}, j);
      assert m - {j} - {k} == m - {k} - {j};
    }
  }

  lemma SumUpdate(m: map<string, PerOperator>, k: string, p: PerOperator)
    ensures SumCounted(m[k := p]) == Counted(p) + SumCounted(m - {k})
  {
    SumWithout(m[k := p], k);
    assert m[k := p] - {k} == m - {k};
  }

  /** One more session in its operator's group. */
  function Include(ops: Operators, m: map<string, PerOperator>, s: Session): map<string, PerOperator> {
    if s.operator !in ops then m
    else
      var group := if s.operator in m then m[s.operator]
          else PerOperator(0, if ops[s.operator].Some? then Some(0) else None);
      m[s.operator := PerOperator(group.sessions + 1,
          if ops[s.operator].Some? then Some(group.billableUnits.GetOr(0) + Units(s.micros, ops[s.operator].value))
              else None)]
  }

  predicate WellGrouped(ops: Operators, m: map<string, PerOperator>) {
    forall k :: k in m ==> k in ops && (m[k].billableUnits.Some? <==> ops[k].Some?)
  }

  lemma IncludeAdds(ops: Operators, m: map<string, PerOperator>, s: Session)
    requires WellGrouped(ops, m)
    ensures WellGrouped(ops, Include(ops, m, s)) && SumCounted(Include(ops, m, s)) == SumCounted(m) + Adds(ops, s)
  {
    if s.operator in ops {
      SumUpdate(m, s.operator, Include(ops, m, s)[s.operator]);
      if s.operator in m { SumWithout(m, s.operator); } else { assert m - {s.operator} == m; }
    }
  }

  /** COUNT(*) and SUM(units) over one operator's sessions. */
  function SessionsOf(ss: seq<Session>, op: string): nat {
    if ss == [] then 0 else SessionsOf(ss[..|ss| - 1], op) + if ss[|ss| - 1].operator == op then 1 else 0
  }

  function UnitsOf(ss: seq<Session>, op: string, w: Window): nat {
    if ss == [] then 0
    else
      var last := ss[|ss| - 1];
      UnitsOf(ss[..|ss| - 1], op, w) + if last.operator == op then Units(last.micros, w) else 0
  }

  function Group(ops: Operators, ss: seq<Session>, op: string): PerOperator
    requires op in ops
  {
    PerOperator(SessionsOf(ss, op), if ops[op].Some? then Some(UnitsOf(ss, op, ops[op].value)) else None)
  }

  /** The groups of these sessions: registered operators that have any. */
  ghost predicate Grouped(ops: Operators, m: map<string, PerOperator>, ss: seq<Session>) {
    && (forall op :: op in m <==> op in ops && SessionsOf(ss, op) > 0)
    && (forall op :: op in m ==> m[op] == Group(ops, ss, op))
  }

  lemma OneMore(ss: seq<Session>, s: Session, op: string)
    ensures SessionsOf(ss + [s], op) == SessionsOf(ss, op) + if s.operator == op then 1 else 0
    ensures forall w: Window ::
              UnitsOf(ss + [s], op, w) == UnitsOf(ss, op, w) + if s.operator == op then Units(s.micros, w) else 0
  {
    assert (ss + [s])[..|ss|] == ss;
  }

  lemma IncludeGroups(ops: Operators, m: map<string, PerOperator>, ss: seq<Session>, s: Session)
    requires Grouped(ops, m, ss)
    ensures Grouped(ops, Include(ops, m, s), ss + [s])
  {
    var m' := Include(ops, m, s);
    forall op
      ensures op in m' <==> op in ops && SessionsOf(ss + [s], op) > 0
      ensures op in m' ==> m'[op] == Group(ops, ss + [s], op)
    {
      OneMore(ss, s, op);
      if op == s.operator && op in ops && op !in m && ops[op].Some? { NoSessionsNoUnits(ss, op, ops[op].value); }
    }
  }

  lemma {:induction false} NoSessionsNoUnits(ss: seq<Session>, op: string, w: Window)
    requires SessionsOf(ss, op) == 0
    ensures UnitsOf(ss, op, w) == 0
  {
    if ss != [] { NoSessionsNoUnits(ss[..|ss| - 1], op, w); }
  }

  /** GROUP BY operator, inner-joined with the operators table. */
  method GroupByOperator(ss: seq<Session>, ops: Operators) returns (m: map<string, PerOperator>)
    ensures forall op :: op in m <==> op in ops && SessionsOf(ss, op) > 0
    ensures forall op :: op in m ==> m[op] == Group(ops, ss, op)
    ensures SumCounted(m) == Total(ops, ss)
  {
    m := map[];
    for i := 0 to |ss|
      invariant Grouped(ops, m, ss[..i]) && WellGrouped(ops, m) && SumCounted(m) == Total(ops, ss[..i])
    {
      IncludeAdds(ops, m, ss[i]);
      TotalSnoc(ops, ss[..i], ss[i]);
      IncludeGroups(ops, m, ss[..i], ss[i]);
      assert ss[..i + 1] == ss[..i] + [ss[i]];
      m := Include(ops, m, ss[i]);
    }
    assert ss[..|ss|] == ss;
  }

  /** The reduce over the per-operator rows. */
  method GrandTotal(m: map<string, PerOperator>) returns (total: nat)
    ensures total == SumCounted(m)
  {
    total := 0;
    var rest := m;
    while rest != map[]
      invariant total + SumCounted(rest) == SumCounted(m)
      decreases |rest|
    {
      var op :| op in rest;
      SumWithout(rest, op);
      total := total + Counted(rest[op]);
      rest := rest - {op};
    }
  }

  /** loadBillableSummary: the per-operator rows and the grand total. */
  method LoadBillableSummary(ss: seq<Session>, ops: Operators)
      returns (perOperator: map<string, PerOperator>, total: nat)
    ensures forall op :: op in perOperator <==> op in ops && SessionsOf(ss, op) > 0
    ensures forall op :: op in perOperator ==> perOperator[op] == Group(ops, ss, op)
    ensures total == Total(ops, ss)
  {
    perOperator := GroupByOperator(ss, ops);
    total := GrandTotal(perOperator);
  }

  /** Every session row's units, counting 1 where the column is NULL. */
  function RowTotal(ops: Operators, ss: seq<Session>): nat {
    if ss == [] then 0 else RowUnits(ops, ss[0]).GetOr(1) + RowTotal(ops, ss[1..])
  }

  /** The grand total equals the sum over the session rows exactly when every
      session's operator is registered: the rows keep an unknown operator
      (LEFT JOIN), the summary drops it (JOIN). */
  lemma {:induction false} TotalIsRowTotalExactly(ops: Operators, ss: seq<Session>)
    ensures Total(ops, ss) <= RowTotal(ops, ss)
    ensures Total(ops, ss) == RowTotal(ops, ss) <==> forall i :: 0 <= i < |ss| ==> ss[i].operator in ops
  {
    if ss != [] {
      TotalIsRowTotalExactly(ops, ss[1..]);
      assert forall i :: 0 <= i < |ss[1..]| ==> ss[1..][i] == ss[i + 1];
      if Total(ops, ss) == RowTotal(ops, ss) {
        forall i | 0 <= i < |ss| ensures ss[i].operator in ops {
          if i > 0 { assert ss[i] == ss[1..][i - 1]; }
        }
      }
    }
  }

  /** A session of an operator that is not registered is a row, and billed there,
      but not part of the total. */
  lemma UnregisteredIsDropped()
    ensures RowTotal(map[], [Session("zantel", 0)]) == 1 && Total(map[], [Session("zantel", 0)]) == 0
  {
    assert [Session("zantel", 0)][1..] == [];
  }
}
