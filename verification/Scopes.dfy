/**
 Which shortcodes a portal session may read, and from when: what login reads
 from the ownership tables, what the session carries, and the allowlist the
 reports are compiled with.
 */
module Scopes {
  import opened Options
  import opened LocalDates
  import opened Sql
  import opened Acl

  type UserId = nat

  /** shortcodes and portal_user_shortcodes; instants in microseconds. */
  datatype Owned = Owned(id: int, owner: UserId, ownerSince: int, createdAt: int)

  datatype Granted = Granted(id: int, user: UserId, at: int)

  datatype Tables = Tables(owned: seq<Owned>, granted: seq<Granted>)

  /** One leg of the UNION ALL: a shortcode the user holds, since when, and
      whether that start limits what the user may read. */
  datatype Hold = Hold(id: int, since: int, floored: bool)

  function OwnedHolds(owned: seq<Owned>, user: UserId): seq<Hold> {
    if owned == [] then []
    else
      var o := owned[0];
      (if o.owner == user then [Hold(o.id, o.ownerSince, o.ownerSince > o.createdAt)] else [])
      + OwnedHolds(owned[1..], user)
  }

  function GrantedHolds(granted: seq<Granted>, user: UserId): seq<Hold> {
    if granted == [] then []
    else
      var g := granted[0];
      (if g.user == user then [Hold(g.id, g.at, true)] else []) + GrantedHolds(granted[1..], user)
  }

  function Holds(t: Tables, user: UserId): seq<Hold> { OwnedHolds(t.owned, user) + GrantedHolds(t.granted, user) }

  /** numeric::bigint rounds to the nearest whole second, halves away from zero. */
  function RoundSecs(micros: int): int {
    if micros >= 0 then (micros + 500_000) / 1_000_000 else -((-micros + 500_000) / 1_000_000)
  }

  lemma RoundsToNearest(micros: int)
    ensures var off := RoundSecs(micros) * 1_000_000 - micros;
            -500_000 <= off <= 500_000 && (off == 500_000 ==> micros > 0) && (off == -500_000 ==> micros < 0)
  {
  }

  lemma {:induction false} OwnedHoldsExactly(owned: seq<Owned>, user: UserId, h: Hold)
    ensures h in OwnedHolds(owned, user)
        <==> exists o :: o in owned && o.owner == user && h == Hold(o.id, o.ownerSince, o.ownerSince > o.createdAt)
  {
    if owned != [] {
      OwnedHoldsExactly(owned[1..], user, h);
      assert forall o :: o in owned <==> o == owned[0] || o in owned[1..];
    }
  }

  lemma {:induction false} GrantedHoldsExactly(granted: seq<Granted>, user: UserId, h: Hold)
    ensures h in GrantedHolds(granted, user)
        <==> exists g :: g in granted && g.user == user && h == Hold(g.id, g.at, true)
  {
    if granted != [] {
      GrantedHoldsExactly(granted[1..], user, h);
      assert forall g :: g in granted <==> g == granted[0] || g in granted[1..];
    }
  }

  /** The holds are the user's own short codes, limited when they changed hands
      after they were created, and every grant, limited always. */
  lemma HoldsExactly(t: Tables, user: UserId, h: Hold)
    ensures h in Holds(t, user)
        <==> (exists o :: o in t.owned && o.owner == user && h.id == o.id && h.since == o.ownerSince
                          && (h.floored <==> o.ownerSince > o.createdAt))
             || (exists g :: g in t.granted && g.user == user && h.id == g.id && h.since == g.at && h.floored)
  {
    OwnedHoldsExactly(t.owned, user, h);
    GrantedHoldsExactly(t.granted, user, h);
  }

  predicate HeldBy(holds: seq<Hold>, id: int) { exists i :: 0 <= i < |holds| && holds[i].id == id }

  predicate FlooredBy(holds: seq<Hold>, id: int) {
    exists i :: 0 <= i < |holds| && holds[i].id == id && holds[i].floored
  }

  /** The earliest of the user's holds on this shortcode started at `since`. */
  predicate Earliest(holds: seq<Hold>, id: int, since: int) {
    && (exists i :: 0 <= i < |holds| && holds[i].id == id && holds[i].since == since)
    && forall i :: 0 <= i < |holds| && holds[i].id == id ==> since <= holds[i].since
  }

  datatype Group = Group(since: int, floored: bool)

  /** One shortcode's group among the first n holds: MIN(since), bool_or(floored). */
  function GroupOf(holds: seq<Hold>, n: nat, id: int): Option<Group>
    requires n <= |holds|
  {
    if n == 0 then None
    else
      var g, h := GroupOf(holds, n - 1, id), holds[n - 1];
      if h.id != id then g
      else if g.None? then Some(Group(h.since, h.floored))
      else Some(Group(if h.since < g.value.since then h.since else g.value.since, g.value.floored || h.floored))
  }

  lemma {:induction false} GroupMeans(holds: seq<Hold>, n: nat, id: int)
    requires n <= |holds|
    ensures var g := GroupOf(holds, n, id);
            && (g.Some? <==> exists i :: 0 <= i < n && holds[i].id == id)
            && (g.Some? ==>
                  && (exists i :: 0 <= i < n && holds[i].id == id && holds[i].since == g.value.since)
                  && (forall i :: 0 <= i < n && holds[i].id == id ==> g.value.since <= holds[i].since)
                  && (g.value.floored <==> exists i :: 0 <= i < n && holds[i].id == id && holds[i].floored))
  {
    if n > 0 { GroupMeans(holds, n - 1, id); }
  }

  /** GROUP BY id. */
  method GroupHolds(holds: seq<Hold>) returns (groups: map<int, Group>)
    ensures forall id :: id in groups <==> GroupOf(holds, |holds|, id).Some?
    ensures forall id :: id in groups ==> Some(groups[id]) == GroupOf(holds, |holds|, id)
  {
    groups := map[];
    for k := 0 to |holds|
      invariant forall id :: id in groups <==> GroupOf(holds, k, id).Some?
      invariant forall id :: id in groups ==> Some(groups[id]) == GroupOf(holds, k, id)
    {
      var h := holds[k];
      if h.id in groups {
        var g := groups[h.id];
        groups := groups[h.id := Group(if h.since < g.since then h.since else g.since, g.floored || h.floored)];
      } else {
        groups := groups[h.id := Group(h.since, h.floored)];
      }
    }
  }

  /** What the session carries: no list at all means unrestricted. */
  datatype Scope = Scope(shortcodeIds: Option<seq<int>>, shortcodeFrom: map<int, int>)

  /** The scope part of loadUserClaims. */
  method LoadScope(perms: seq<string>, t: Tables, user: UserId) returns (s: Scope)
    ensures s.shortcodeIds.None? <==> "reports.view_all" in perms
    ensures s.shortcodeIds.Some? ==> Carries(s, Holds(t, user))
  {
    if "reports.view_all" in perms { return Scope(None, map[]); }
    var holds := Holds(t, user);
    var groups := GroupHolds(holds);
    var ids: seq<int> := [];
    var from: map<int, int> := map[];
    var rest := groups.Keys;
    while rest != {}
      invariant rest <= groups.Keys
      invariant forall id :: id in ids <==> id in groups && id !in rest
      invariant forall id :: id in from <==> id in groups && id !in rest && groups[id].floored
      invariant forall id :: id in from ==> from[id] == RoundSecs(groups[id].since)
      decreases rest
    {
      LeastExists(rest);
      var id :| id in rest && forall other :: other in rest ==> id <= other;   // ORDER BY id
      ids := ids + [id];
      if groups[id].floored { from := from[id := RoundSecs(groups[id].since)]; }
      rest := rest - {id};
    }
    s := Scope(Some(ids), from);
    GroupsCarry(holds, groups, s);
  }

  lemma AnyOf<T>(s: set<T>) returns (x: T)
    requires s != {}
    ensures x in s
  {
    x :| x in s;
  }

  lemma {:induction false} LeastExists(ids: set<int>)
    requires ids != {}
    ensures exists id :: id in ids && forall other :: other in ids ==> id <= other
    decreases |ids|
  {
    var x := AnyOf(ids);
    var rest := ids - {x};
    assert ids == rest + {x};
    if rest == {} {
      assert x in ids && forall other :: other in rest + {x} ==> x <= other;
    } else {
      LeastExists(rest);
      var m :| m in rest && forall other :: other in rest ==> m <= other;
      var w := if x < m then x else m;
      assert w in ids && forall other :: other in rest + {x} ==> w <= other;
    }
  }

  /** The scope lists what is held; a floored shortcode carries the rounded
      start of its earliest hold, the others carry none. */
  ghost predicate Carries(s: Scope, holds: seq<Hold>) {
    && s.shortcodeIds.Some?
    && (forall id :: id in s.shortcodeIds.value <==> HeldBy(holds, id))
    && (forall id :: id in s.shortcodeFrom <==> FlooredBy(holds, id))
    && (forall id :: id in s.shortcodeFrom ==>
          exists since :: Earliest(holds, id, since) && s.shortcodeFrom[id] == RoundSecs(since))
  }

  lemma GroupsCarry(holds: seq<Hold>, groups: map<int, Group>, s: Scope)
    requires forall id :: id in groups <==> GroupOf(holds, |holds|, id).Some?
    requires forall id :: id in groups ==> Some(groups[id]) == GroupOf(holds, |holds|, id)
    requires s.shortcodeIds.Some? && forall id :: id in s.shortcodeIds.value <==> id in groups
    requires forall id :: id in s.shortcodeFrom <==> id in groups && groups[id].floored
    requires forall id :: id in s.shortcodeFrom ==> s.shortcodeFrom[id] == RoundSecs(groups[id].since)
    ensures Carries(s, holds)
  {
    forall id
      ensures id in groups <==> HeldBy(holds, id)
      ensures id in s.shortcodeFrom <==> FlooredBy(holds, id)
      ensures id in groups ==> Earliest(holds, id, groups[id].since)
    {
      GroupMeans(holds, |holds|, id);
      if FlooredBy(holds, id) { assert HeldBy(holds, id); }
    }
    forall id | id in s.shortcodeFrom
      ensures exists since :: Earliest(holds, id, since) && s.shortcodeFrom[id] == RoundSecs(since)
    {
      assert Earliest(holds, id, groups[id].since);
    }
  }

  /** The allowlist in the shape the reports use; floors are whole seconds. */
  function SessionAcl(session: Option<Scope>): ShortcodeAcl {
    if session.None? then Some([])
    else if session.value.shortcodeIds.None? then None
    else
      var ids := session.value.shortcodeIds.value;
      var from := session.value.shortcodeFrom;
      Some(seq(|ids|,
          i requires 0 <= i < |ids| => Grant(ids[i], (if ids[i] in from then from[ids[i]] else 0) * MICROS)))
  }

  /** Without a session nothing is visible; with one that carries no list,
      everything is; with an empty list, nothing. */
  lemma NoSessionSeesNothing(row: Row, s: Scope)
    ensures !Sees(SessionAcl(None), row)
    ensures s.shortcodeIds.None? ==> Sees(SessionAcl(Some(s)), row)
    ensures s.shortcodeIds == Some([]) ==> !Sees(SessionAcl(Some(s)), row)
  {
  }

  lemma EarliestIsUnique(holds: seq<Hold>, id: int, a: int, b: int)
    requires Earliest(holds, id, a) && Earliest(holds, id, b)
    ensures a == b
  {
  }

  /** From the ownership tables to the compiled predicate: nothing of a short code
      that is not held, everything of one whose holds are not limited, and from
      the rounded start of the earliest hold otherwise (a start that rounds to 0
      or less counts as no limit). */
  lemma SeesFromRoundedStart(t: Tables, user: UserId, s: Scope, ts: int, id: int, since: int)
    requires Carries(s, Holds(t, user)) && (HeldBy(Holds(t, user), id) ==> Earliest(Holds(t, user), id, since))
    ensures Sees(SessionAcl(Some(s)), LegAt(ts, id))
       <==> HeldBy(Holds(t, user), id)
            && (FlooredBy(Holds(t, user), id) ==> RoundSecs(since) <= 0 || ts >= RoundSecs(since) * MICROS)
  {
    var holds := Holds(t, user);
    var gs := SessionAcl(Some(s)).value;
    var ids := s.shortcodeIds.value;
    if id in s.shortcodeFrom {
      var b :| Earliest(holds, id, b) && s.shortcodeFrom[id] == RoundSecs(b);
      if HeldBy(holds, id) { EarliestIsUnique(holds, id, since, b); }
    }
    if Sees(Some(gs), LegAt(ts, id)) {
      var i :| 0 <= i < |gs| && Some(id) == Some(gs[i].id) && Open(gs[i], LegAt(ts, id));
      assert ids[i] == id && id in ids;
    }
    if HeldBy(holds, id) && (FlooredBy(holds, id) ==> RoundSecs(since) <= 0 || ts >= RoundSecs(since) * MICROS) {
      var i :| 0 <= i < |ids| && ids[i] == id;
      assert gs[i].id == id && Open(gs[i], LegAt(ts, id));
    }
  }

  /** The ownership tables let this user read this leg: a hold that is limited
      starts at the hand-over itself. */
  ghost predicate Entitled(holds: seq<Hold>, ts: int, id: int) {
    HeldBy(holds, id) && (FlooredBy(holds, id) ==> exists since :: Earliest(holds, id, since) && ts >= since)
  }

  /** The start rounds up, or not at all. */
  predicate RoundsUp(since: int) { since % MICROS == 0 || since % MICROS >= 500_000 }

  lemma RoundingOf(since: int)
    requires since >= 500_000
    ensures RoundSecs(since) > 0 && (RoundSecs(since) * MICROS >= since <==> RoundsUp(since))
    ensures RoundSecs(since) * MICROS <= since <==> since % MICROS < 500_000
  {
  }

  /** No leg from before the hand-over is visible, exactly when the hand-over is
      half a second or more into 1970 and its second rounds up. */
  lemma NothingBeforeHandOverExactly(t: Tables, user: UserId, s: Scope, id: int, since: int)
    requires Carries(s, Holds(t, user)) && FlooredBy(Holds(t, user), id) && Earliest(Holds(t, user), id, since)
    ensures (forall ts :: ts < since ==> !Sees(SessionAcl(Some(s)), LegAt(ts, id)))
        <==> since >= 500_000 && RoundsUp(since)
  {
    var acl := SessionAcl(Some(s));
    assert HeldBy(Holds(t, user), id);
    if since >= 500_000 { RoundingOf(since); }
    forall ts
      ensures Sees(acl, LegAt(ts, id)) <==> RoundSecs(since) <= 0 || ts >= RoundSecs(since) * MICROS
    {
      SeesFromRoundedStart(t, user, s, ts, id, since);
    }
    if !(since >= 500_000 && RoundsUp(since)) { assert Sees(acl, LegAt(since - 1, id)); }
  }

  /** No leg from the hand-over on is hidden, exactly when its second does not
      round up past it. */
  lemma NothingOfTheirsHiddenExactly(t: Tables, user: UserId, s: Scope, id: int, since: int)
    requires Carries(s, Holds(t, user)) && FlooredBy(Holds(t, user), id) && Earliest(Holds(t, user), id, since)
    ensures (forall ts :: ts >= since ==> Sees(SessionAcl(Some(s)), LegAt(ts, id)))
       <==> since < 500_000 || since % MICROS < 500_000
  {
    var acl := SessionAcl(Some(s));
    assert HeldBy(Holds(t, user), id);
    if since >= 500_000 { RoundingOf(since); }
    forall ts
      ensures Sees(acl, LegAt(ts, id)) <==> RoundSecs(since) <= 0 || ts >= RoundSecs(since) * MICROS
    {
      SeesFromRoundedStart(t, user, s, ts, id, since);
    }
    if since >= 500_000 && since % MICROS >= 500_000 { assert !Sees(acl, LegAt(since, id)); }
  }

  /** Exactly the entitled legs of a short code are visible when its holds are not
      limited, or when the hand-over falls on a whole second after 1970 began;
      for every other hand-over some leg is visible too early or too late. */
  lemma SeesExactlyEntitled(t: Tables, user: UserId, s: Scope, id: int, since: int)
    requires Carries(s, Holds(t, user)) && Earliest(Holds(t, user), id, since)
    ensures (forall ts :: Sees(SessionAcl(Some(s)), LegAt(ts, id)) <==> Entitled(Holds(t, user), ts, id))
       <==> !FlooredBy(Holds(t, user), id) || (since > 0 && since % MICROS == 0)
  {
    var holds := Holds(t, user);
    assert HeldBy(holds, id);
    forall ts ensures Entitled(holds, ts, id) <==> !FlooredBy(holds, id) || ts >= since {
      if b :| Earliest(holds, id, b) && ts >= b { EarliestIsUnique(holds, id, since, b); }
    }
    if FlooredBy(holds, id) {
      NothingBeforeHandOverExactly(t, user, s, id, since);
      NothingOfTheirsHiddenExactly(t, user, s, id, since);
    } else {
      forall ts ensures Sees(SessionAcl(Some(s)), LegAt(ts, id)) { SeesFromRoundedStart(t, user, s, ts, id, since); }
    }
  }

  /** A hand-over 0.4 s into a second shows the new owner a leg of the previous
      owner from 0.3 s before it. */
  lemma EarlierLegIsSeen(secs: int, id: int, user: UserId, s: Scope)
    requires secs > 0
    requires Carries(s, Holds(Tables([Owned(id, user, secs * MICROS + 400_000, 0)], []), user))
    ensures Sees(SessionAcl(Some(s)), LegAt(secs * MICROS + 100_000, id))
  {
    var t := Tables([Owned(id, user, secs * MICROS + 400_000, 0)], []);
    var since := secs * MICROS + 400_000;
    assert OwnedHolds(t.owned[1..], user) == [] && GrantedHolds([], user) == [];
    assert Holds(t, user) == [Hold(id, since, true)];
    assert Holds(t, user)[0].id == id;
    SeesFromRoundedStart(t, user, s, secs * MICROS + 100_000, id, since);
  }

  /** Whatever a session carries, its daily buckets and its legs agree: a day is
      visible exactly when every instant of it is.  Floors of whole seconds are
      what makes this hold for all of them. */
  lemma DaysAndLegsAgree(session: Option<Scope>, id: int, day: int)
    ensures Sees(SessionAcl(session), Bucket(day, Some(id))) <==> SeesDay(SessionAcl(session), id, day)
  {
    var acl := SessionAcl(session);
    if acl.Some? {
      forall i | 0 <= i < |acl.value| ensures !LosesFraction(acl.value[i].from) {
        var ids, from := session.value.shortcodeIds.value, session.value.shortcodeFrom;
        WholeSecondsLoseNothing(if ids[i] in from then from[ids[i]] else 0);
      }
    }
    DayVisibleExactly(acl, id);
  }
}
