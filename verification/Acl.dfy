/**
 Per-row shortcode access control: the time-scoped allowlist and the SQL
 predicate it compiles to.
 */
module Acl {
  import opened Options
  import opened LocalDates
  import opened Sql

  /** `from` in microseconds since the epoch; 0 or less means "since forever". */
  datatype Grant = Grant(id: int, from: int)

  /** None = unrestricted; otherwise an allowlist, possibly empty. */
  type ShortcodeAcl = Option<seq<Grant>>

  datatype Grain = ByTs | ByDate

  function AclIds(acl: ShortcodeAcl): Option<seq<int>> {
    if acl.None? then None else Some(seq(|acl.value|, i requires 0 <= i < |acl.value| => acl.value[i].id))
  }

  predicate AclDeniesAll(acl: ShortcodeAcl) { acl.Some? && acl.value == [] }

  function Filter(gs: seq<Grant>, want: set<int>): seq<Grant> {
    if gs == [] then [] else (if gs[0].id in want then [gs[0]] else []) + Filter(gs[1..], want)
  }

  function AclIntersect(acl: ShortcodeAcl, ids: seq<int>): ShortcodeAcl {
    if ids == [] then acl
    else if acl.None? then Some(seq(|ids|, i requires 0 <= i < |ids| => Grant(ids[i], 0)))
    else Some(Filter(acl.value, set id | id in ids))
  }

  // ---- what an ACL means ------------------------------------------------------------

  /** The grant opens for a row of this grain: exact instant, or whole day. */
  predicate Open(g: Grant, row: Row) {
    g.from <= 0 || (match row
                    case Leg(ts, _, _, _, _, _) => ts >= g.from
                    case Bucket(day, _) => day >= CeilDay(g.from))
  }

  /** Some grant has this row's shortcode and is open for it. */
  predicate Sees(acl: ShortcodeAcl, row: Row) {
    acl.None? || exists i :: 0 <= i < |acl.value| && row.shortcodeId == Some(acl.value[i].id) && Open(acl.value[i], row)
  }

  predicate Fits(grain: Grain, row: Row) { grain.ByTs? == row.Leg? }

  /** An allowlist denies everything exactly when no row is visible under it. */
  lemma DeniesAllExactly(acl: ShortcodeAcl)
    ensures AclDeniesAll(acl) <==> forall row :: !Sees(acl, row)
  {
    if acl.None? {
      assert Sees(acl, Bucket(0, None));
    } else if acl.value != [] {
      var g := acl.value[0];
      assert Open(g, Leg(g.from, "", "", Some(g.id), None, None));
      assert Sees(acl, Leg(g.from, "", "", Some(g.id), None, None));
    }
  }

  /** The ids are those of the short codes that have a visible row at all. */
  lemma IdsAreTheVisible(acl: ShortcodeAcl, id: int)
    ensures AclIds(acl).None? <==> acl.None?
    ensures acl.Some? ==>
        (id in AclIds(acl).value <==> exists row: Row :: row.shortcodeId == Some(id) && Sees(acl, row))
  {
    if acl.Some? && id in AclIds(acl).value {
      var i :| 0 <= i < |acl.value| && AclIds(acl).value[i] == id;
      var row := Leg(acl.value[i].from, "", "", Some(id), None, None);
      assert Open(acl.value[i], row) && Sees(acl, row);
    }
    if acl.Some? && exists row: Row :: row.shortcodeId == Some(id) && Sees(acl, row) {
      var row: Row :| row.shortcodeId == Some(id) && Sees(acl, row);
      var i :| 0 <= i < |acl.value| && row.shortcodeId == Some(acl.value[i].id);
      assert AclIds(acl).value[i] == id;
    }
  }

  // ---- the compiled predicate ---------------------------------------------------------

  /** The ids granted from `from` among the first n grants, in order. */
  function IdsFrom(gs: seq<Grant>, n: nat, from: int): seq<int>
    requires n <= |gs|
  {
    if n == 0 then [] else IdsFrom(gs, n - 1, from) + if gs[n - 1].from == from then [gs[n - 1].id] else []
  }

  lemma {:induction false} IdsFromHas(gs: seq<Grant>, n: nat, from: int, id: int)
    requires n <= |gs|
    ensures id in IdsFrom(gs, n, from) <==> Grant(id, from) in gs[..n]
  {
    if n > 0 {
      IdsFromHas(gs, n - 1, from, id);
      assert gs[..n] == gs[..n - 1] + [gs[n - 1]];
    }
  }

  /** The floors among the first n grants, in the order they first appear. */
  function FloorOrder(gs: seq<Grant>, n: nat): seq<int>
    requires n <= |gs|
  {
    if n == 0 then []
    else
      var floors := FloorOrder(gs, n - 1);
      if gs[n - 1].from in floors then floors else floors + [gs[n - 1].from]
  }

  lemma {:induction false} FloorOrderHas(gs: seq<Grant>, n: nat, f: int)
    requires n <= |gs|
    ensures f in FloorOrder(gs, n) <==> exists i :: 0 <= i < n && gs[i].from == f
    ensures f !in FloorOrder(gs, n) ==> IdsFrom(gs, n, f) == []
  {
    if n > 0 {
      FloorOrderHas(gs, n - 1, f);
      if gs[n - 1].from == f { assert f in FloorOrder(gs, n); }
    }
  }

  /** This floor appears in the first k + 1 grants, that one not yet. */
  predicate SeenFirst(gs: seq<Grant>, k: int, f: int, g: int) {
    0 <= k < |gs| && gs[k].from == f && forall i :: 0 <= i <= k ==> gs[i].from != g
  }

  /** Each floor is listed once, and earlier ones appeared earlier. */
  lemma {:induction false} FloorOrderIsFirstSeen(gs: seq<Grant>, n: nat, i: nat, j: nat)
    requires n <= |gs| && i < j < |FloorOrder(gs, n)|
    ensures FloorOrder(gs, n)[i] != FloorOrder(gs, n)[j]
    ensures exists k :: k < n && SeenFirst(gs, k, FloorOrder(gs, n)[i], FloorOrder(gs, n)[j])
  {
    var floors := FloorOrder(gs, n - 1);
    if j < |floors| {
      FloorOrderIsFirstSeen(gs, n - 1, i, j);
    } else {
      FloorOrderHas(gs, n - 1, floors[i]);
      FloorOrderHas(gs, n - 1, gs[n - 1].from);
      var k :| 0 <= k < n - 1 && gs[k].from == floors[i];
      assert SeenFirst(gs, k, floors[i], gs[n - 1].from);
    }
  }

  /** Group the ids by their floor; the map remembers the order floors first appear in. */
  method GroupByFloor(gs: seq<Grant>) returns (floors: seq<int>, byFrom: map<int, seq<int>>)
    ensures floors == FloorOrder(gs, |gs|)
    ensures forall f :: f in byFrom <==> exists i :: 0 <= i < |gs| && gs[i].from == f
    ensures forall f :: f in byFrom ==> f in floors && byFrom[f] == IdsFrom(gs, |gs|, f)
  {
    floors, byFrom := [], map[];
    for k := 0 to |gs|
      invariant floors == FloorOrder(gs, k)
      invariant forall f :: f in byFrom <==> f in floors
      invariant forall f :: f in byFrom ==> byFrom[f] == IdsFrom(gs, k, f)
    {
      var g := gs[k];
      FloorOrderHas(gs, k, g.from);
      if g.from in byFrom {
        byFrom := byFrom[g.from := byFrom[g.from] + [g.id]];
      } else {
        floors := floors + [g.from];
        byFrom := byFrom[g.from := [g.id]];
      }
    }
    forall f ensures f in byFrom <==> exists i :: 0 <= i < |gs| && gs[i].from == f { FloorOrderHas(gs, |gs|, f); }
  }

  /** Some grant with this floor fits the row. */
  predicate SeesVia(gs: seq<Grant>, from: int, row: Row) {
    row.shortcodeId.Some? && Grant(row.shortcodeId.value, from) in gs && Open(Grant(row.shortcodeId.value, from), row)
  }

  /** The branch for one floor. */
  method Branch(gs: seq<Grant>, ids: seq<int>, from: int, grain: Grain, params: seq<Value>)
    returns (c: Cond, out: seq<Value>)
    requires ids == IdsFrom(gs, |gs|, from)
    ensures params <= out && Scoped(c, |out|)
    ensures forall row, db :: Fits(grain, row) ==> (Holds(c, out, row, db) <==> SeesVia(gs, from, row))
  {
    out := params + [Ints(ids)];
    var idsP := ShortcodeAny(|out|);
    forall id ensures id in ids <==> Grant(id, from) in gs {
      IdsFromHas(gs, |gs|, from, id);
      assert gs[..|gs|] == gs;
    }
    if from <= 0 { return idsP, out; }
    var ids1 := out;
    var floor;
    if grain.ByTs? {
      out := out + [Instant(from)];
      floor := TsFromEpoch(|out|);
    } else {
      var day := CeilToLocalDate(from);
      CeilIsDetermined(from, day);
      out := out + [Date(day)];
      floor := DateFrom(|out|);
    }
    c := And([idsP, floor]);
    forall row, db | Fits(grain, row)
      ensures Holds(c, out, row, db) <==> SeesVia(gs, from, row)
    {
      EvalAllYes([idsP, floor], out, row, db);
      assert AllHold([idsP, floor], out, row, db) <==> Holds(idsP, out, row, db) && Holds(floor, out, row, db) by {
        assert [idsP, floor][0] == idsP && [idsP, floor][1] == floor;
      }
    }
    assert AllScoped([idsP, floor], |out|) by { AllScopedAt([idsP, floor], |out|); }
  }

  /** A list of branches, one per floor handled so far. */
  ghost predicate BranchesMean(branches: seq<Cond>, floors: seq<int>, gs: seq<Grant>, grain: Grain, params: seq<Value>)
  {
    && |branches| <= |floors|
    && (forall i :: 0 <= i < |branches| ==> Scoped(branches[i], |params|))
    && (forall i, row, db :: 0 <= i < |branches| && Fits(grain, row)
          ==> (Holds(branches[i], params, row, db) <==> SeesVia(gs, floors[i], row)))
  }

  lemma BranchesKeepMeaning(branches: seq<Cond>, floors: seq<int>, gs: seq<Grant>, grain: Grain, params: seq<Value>,
      more: seq<Value>)
    requires BranchesMean(branches, floors, gs, grain, params) && params <= more
    ensures BranchesMean(branches, floors, gs, grain, more)
  {
    forall i, row: Row, db: Database | 0 <= i < |branches| && Fits(grain, row)
      ensures Scoped(branches[i], |more|)
      ensures Holds(branches[i], more, row, db) <==> SeesVia(gs, floors[i], row)
    {
      LaterParams(branches[i], |params|, params, more, row, db);
      assert Holds(branches[i], params, row, db) <==> SeesVia(gs, floors[i], row);
    }
    forall i | 0 <= i < |branches| ensures Scoped(branches[i], |more|) {
      LaterParams(branches[i], |params|, params, more, Bucket(0, None), Database([], 0));
    }
  }

  lemma AnyBranch(branches: seq<Cond>, floors: seq<int>, gs: seq<Grant>, grain: Grain, params: seq<Value>, row: Row,
      db: Database)
    requires BranchesMean(branches, floors, gs, grain, params) && |branches| == |floors| > 0 && Fits(grain, row)
    requires forall f :: f in floors <==> exists i :: 0 <= i < |gs| && gs[i].from == f
    ensures Holds(if |branches| == 1 then branches[0] else Or(branches), params, row, db) <==> Sees(Some(gs), row)
  {
    SeesByFloor(gs, floors, row);
    EvalAnyYes(branches, params, row, db);
    assert forall i :: 0 <= i < |branches| ==> (Holds(branches[i], params, row, db) <==> SeesVia(gs, floors[i], row));
    if i :| 0 <= i < |branches| && Holds(branches[i], params, row, db) {
      assert SeesVia(gs, floors[i], row);
    }
    if k :| 0 <= k < |floors| && SeesVia(gs, floors[k], row) {
      assert Holds(branches[k], params, row, db);
    }
  }

  /** The ACL predicate over an already filled parameter list: it pushes its own
      parameters behind the others and holds of exactly the rows the ACL sees. */
  method AclClause(acl: ShortcodeAcl, grain: Grain, params: seq<Value>) returns (c: Cond, out: seq<Value>)
    ensures params <= out && Scoped(c, |out|)
    ensures forall row, db :: Fits(grain, row) ==> (Holds(c, out, row, db) <==> Sees(acl, row))
  {
    if acl.None? { return Constant(true), params; }
    var gs := acl.value;
    if gs == [] { return Constant(false), params; }

    var floors, byFrom := GroupByFloor(gs);
    forall f ensures f in floors <==> exists i :: 0 <= i < |gs| && gs[i].from == f { FloorOrderHas(gs, |gs|, f); }
    assert gs[0].from in floors;
    assert forall k :: 0 <= k < |floors| ==> floors[k] in floors;
    var branches: seq<Cond> := [];
    out := params;
    for k := 0 to |floors|
      invariant params <= out && |branches| == k
      invariant BranchesMean(branches, floors, gs, grain, out)
    {
      var before := out;
      var branch;
      branch, out := Branch(gs, byFrom[floors[k]], floors[k], grain, before);
      BranchesKeepMeaning(branches, floors, gs, grain, before, out);
      branches := branches + [branch];
    }
    c := if |branches| == 1 then branches[0] else Or(branches);
    forall row: Row, db: Database | Fits(grain, row)
      ensures Holds(c, out, row, db) <==> Sees(acl, row)
    {
      AnyBranch(branches, floors, gs, grain, out, row, db);
    }
    AllScopedAt(branches, |out|);
  }

  /** Grouping by floor changes nothing. */
  lemma SeesByFloor(gs: seq<Grant>, floors: seq<int>, row: Row)
    requires forall f :: f in floors <==> exists i :: 0 <= i < |gs| && gs[i].from == f
    ensures Sees(Some(gs), row) <==> exists k :: 0 <= k < |floors| && SeesVia(gs, floors[k], row)
  {
    if Sees(Some(gs), row) {
      var i :| 0 <= i < |gs| && row.shortcodeId == Some(gs[i].id) && Open(gs[i], row);
      assert gs[i].from in floors;
      var k :| 0 <= k < |floors| && floors[k] == gs[i].from;
      assert gs[i] == Grant(gs[i].id, gs[i].from) && SeesVia(gs, floors[k], row);
    }
  }

  // ---- narrowing ------------------------------------------------------------------------

  lemma {:induction false} FilterKeeps(gs: seq<Grant>, want: set<int>, g: Grant)
    ensures g in Filter(gs, want) <==> g in gs && g.id in want
  {
    if gs != [] { FilterKeeps(gs[1..], want, g); }
  }

  lemma SeesIn(gs: seq<Grant>, row: Row)
    ensures Sees(Some(gs), row) <==> exists g :: g in gs && row.shortcodeId == Some(g.id) && Open(g, row)
  {
    if g :| g in gs && row.shortcodeId == Some(g.id) && Open(g, row) {
      var i :| 0 <= i < |gs| && gs[i] == g;
    }
  }

  /** Narrowing to some picked ids sees exactly the rows the ACL sees that carry
      one of them; picking nothing narrows nothing. */
  lemma IntersectNarrows(acl: ShortcodeAcl, ids: seq<int>, row: Row)
    ensures Sees(AclIntersect(acl, ids), row)
        <==> Sees(acl, row) && (ids == [] || (row.shortcodeId.Some? && row.shortcodeId.value in ids))
  {
    if ids != [] {
      var narrowed := AclIntersect(acl, ids).value;
      SeesIn(narrowed, row);
      if acl.Some? {
        SeesIn(acl.value, row);
        forall g ensures g in narrowed <==> g in acl.value && g.id in ids {
          FilterKeeps(acl.value, (set id | id in ids), g);
        }
      } else if row.shortcodeId.Some? && row.shortcodeId.value in ids {
        var i :| 0 <= i < |ids| && ids[i] == row.shortcodeId.value;
        assert narrowed[i] == Grant(ids[i], 0);
      }
    }
  }

  // ---- whole days ------------------------------------------------------------------------

  predicate InDay(ts: int, day: int) { DayStart(day) <= ts < DayStart(day + 1) }

  function LegAt(ts: int, id: int): Row { Leg(ts, "", "", Some(id), None, None) }

  /** The grant opens every instant of the day. */
  ghost predicate OpensDay(g: Grant, day: int) { forall ts :: InDay(ts, day) ==> Open(g, LegAt(ts, g.id)) }

  lemma OpensDayFromItsStart(g: Grant, day: int)
    ensures OpensDay(g, day) <==> Open(g, LegAt(DayStart(day), g.id))
  {
    assert InDay(DayStart(day), day);
    if Open(g, LegAt(DayStart(day), g.id)) {
      forall ts | InDay(ts, day) ensures Open(g, LegAt(ts, g.id)) { }
    }
  }

  /** One grant opens a day bucket exactly when it opens every instant of the
      day, for every day, if and only if its floor loses no fraction. */
  lemma DayGrainIsExact(g: Grant)
    ensures (forall day :: Open(g, Bucket(day, Some(g.id))) <==> OpensDay(g, day))
        <==> g.from <= 0 || !LosesFraction(g.from)
  {
    forall day ensures OpensDay(g, day) <==> Open(g, LegAt(DayStart(day), g.id)) { OpensDayFromItsStart(g, day); }
    if g.from > 0 {
      CeilIsLeastExactly(g.from);
      var c := CeilDay(g.from);
      assert Open(g, Bucket(c, Some(g.id)));
      if LosesFraction(g.from) {
        assert DayStart(c) < g.from;
        assert !OpensDay(g, c);
      }
    }
  }

  /** Every instant of the day is visible. */
  ghost predicate SeesDay(acl: ShortcodeAcl, id: int, day: int) {
    forall ts :: InDay(ts, day) ==> Sees(acl, LegAt(ts, id))
  }

  predicate Grants(gs: seq<Grant>, id: int, i: int) { 0 <= i < |gs| && gs[i].id == id }

  /** The i-th grant is an earliest one of this id. */
  ghost predicate FirstGrant(gs: seq<Grant>, id: int, i: int) {
    Grants(gs, id, i) && forall j :: Grants(gs, id, j) ==> gs[i].from <= gs[j].from
  }

  /** What decides it: the id is not granted at all, or its earliest floor is no
      floor, or loses no fraction. */
  ghost predicate FloorShows(acl: ShortcodeAcl, id: int) {
    acl.Some? ==> forall i :: FirstGrant(acl.value, id, i) ==>
        acl.value[i].from <= 0 || !LosesFraction(acl.value[i].from)
  }

  lemma {:induction false} FirstGrantExists(gs: seq<Grant>, id: int, k: int)
    requires Grants(gs, id, k)
    ensures exists i :: FirstGrant(gs, id, i)
    decreases |gs|
  {
    var n := |gs| - 1;
    if exists j :: Grants(gs[..n], id, j) {
      var j :| Grants(gs[..n], id, j);
      FirstGrantExists(gs[..n], id, j);
      var m :| FirstGrant(gs[..n], id, m);
      assert forall i :: Grants(gs, id, i) && i < n ==> Grants(gs[..n], id, i);
      assert FirstGrant(gs, id, if Grants(gs, id, n) && gs[n].from < gs[m].from then n else m);
    } else {
      assert forall i :: Grants(gs, id, i) && i < n ==> Grants(gs[..n], id, i);
      assert FirstGrant(gs, id, n);
    }
  }

  /** The earliest grant decides what is visible at either grain. */
  lemma FirstGrantDecides(gs: seq<Grant>, id: int, i: int)
    requires FirstGrant(gs, id, i)
    ensures forall ts :: Sees(Some(gs), LegAt(ts, id)) <==> Open(gs[i], LegAt(ts, id))
    ensures forall day :: Sees(Some(gs), Bucket(day, Some(id))) <==> Open(gs[i], Bucket(day, Some(id)))
  {
    forall j | Grants(gs, id, j) && gs[i].from > 0 ensures CeilDay(gs[i].from) <= CeilDay(gs[j].from) {
      CeilIsMonotone(gs[i].from, gs[j].from);
    }
    forall day ensures Sees(Some(gs), Bucket(day, Some(id))) <==> Open(gs[i], Bucket(day, Some(id))) {
      if Sees(Some(gs), Bucket(day, Some(id))) {
        var j :| 0 <= j < |gs| && Some(id) == Some(gs[j].id) && Open(gs[j], Bucket(day, Some(id)));
        assert Grants(gs, id, j);
      }
    }
    forall ts ensures Sees(Some(gs), LegAt(ts, id)) <==> Open(gs[i], LegAt(ts, id)) {
      if Sees(Some(gs), LegAt(ts, id)) {
        var j :| 0 <= j < |gs| && Some(id) == Some(gs[j].id) && Open(gs[j], LegAt(ts, id));
        assert Grants(gs, id, j);
      }
    }
  }

  lemma NotGranted(gs: seq<Grant>, id: int, row: Row)
    requires row.shortcodeId == Some(id) && forall i :: !Grants(gs, id, i)
    ensures !Sees(Some(gs), row)
  {
    assert forall i :: 0 <= i < |gs| && row.shortcodeId == Some(gs[i].id) ==> Grants(gs, id, i);
  }

  /** For whole ACLs, whichever grants of an id mask each other: its days are
      visible exactly when all their instants are, for every day, if and only if
      its earliest floor shows. */
  lemma DayVisibleExactly(acl: ShortcodeAcl, id: int)
    ensures (forall day :: Sees(acl, Bucket(day, Some(id))) <==> SeesDay(acl, id, day)) <==> FloorShows(acl, id)
  {
    if acl.Some? {
      var gs := acl.value;
      if k :| Grants(gs, id, k) {
        FirstGrantExists(gs, id, k);
        var i :| FirstGrant(gs, id, i);
        FirstGrantDecides(gs, id, i);
        DayGrainIsExact(gs[i]);
        assert forall day :: SeesDay(acl, id, day) <==> OpensDay(gs[i], day);
        assert forall j :: FirstGrant(gs, id, j) ==> gs[j].from == gs[i].from;
      } else {
        forall day ensures !Sees(acl, Bucket(day, Some(id))) && !SeesDay(acl, id, day) {
          assert InDay(DayStart(day), day);
          NotGranted(gs, id, LegAt(DayStart(day), id));
          NotGranted(gs, id, Bucket(day, Some(id)));
        }
      }
    }
  }
}
