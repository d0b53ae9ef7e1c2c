/**
 Gateway workers, sweepers and the backstop, all over one session table.

 A leg is in flight from the upsert in its parse() until its reply is out and,
 for an END, its row is deleted.  Any number of legs of one session may be in
 flight at once, for any time; an END or a terminal leg deletes whatever row the
 session has by then.  A sweeper locks its victims in one step (SELECT ... FOR
 UPDATE SKIP LOCKED) and deletes them when it commits, so legs interleave
 between the two; a statement that would wait for a locked row leaves the state
 as it is.  Every row gets a serial number when it is inserted, and a ledger
 records how each one ended.
 */
module SessionSweeps {
  import opened Options
  import opened ExpiryConfig
  import opened SessionCache

  type Worker = nat
  type LegId = nat

  datatype Cause =
    | ByReply         // END reply, canned END, unconfigured shortcode
    | ByTerminalLeg   // cancel or timeout reported by the network
    | ByClaim         // a sweeper, which then notifies the handler
    | ByBackstop

  /** The serial numbers of the rows deleted so far, by cause, with multiplicity. */
  datatype Ledger = Ledger(replies: multiset<nat>, terminals: multiset<nat>, claims: multiset<nat>,
      backstops: multiset<nat>) {
    function All(): multiset<nat> { replies + terminals + claims + backstops }

    function Add(cause: Cause, ids: multiset<nat>): Ledger {
      match cause
      case ByReply => this.(replies := replies + ids)
      case ByTerminalLeg => this.(terminals := terminals + ids)
      case ByClaim => this.(claims := claims + ids)
      case ByBackstop => this.(backstops := backstops + ids)
    }
  }

  /** A leg being handled; `id` is the row it upserted, if it upserted one. */
  datatype Flight = Flight(key: Key, id: Option<nat>, start: int)

  datatype State = State(
    now: int,
    rows: map<Key, Row>,
    ids: map<Key, nat>,                  // serial number of each live row
    born: nat,                           // rows ever inserted
    ledger: Ledger,
    holds: map<Key, Worker>,             // rows locked by sweepers about to claim them
    flights: map<LegId, Flight>)         // legs between upsert and reply

  datatype Step =
    | Leg(leg: LegId, key: Key, row: Option<Row>)   // parse() upserts, or finds nothing to extend
    | Reply(leg: LegId, end: bool)                  // handler and push are done
    | Terminal(key: Key)                            // deletes without looking whether a row is there
    | Lock(worker: Worker, picked: set<Key>)
    | Claim(worker: Worker)
    | Release(worker: Worker)                       // the claiming transaction rolls back
    | Backstop(picked: set<Key>)
    | Tick(micros: nat)

  datatype Gateway = Gateway(config: Config, operators: map<OpId, string>) {
    /** The leg has taken less than its operator's idle limit so far. */
    predicate OnTime(flight: Flight, now: int) {
      flight.key.1 in operators ==> now - flight.start < config.SqlLimit(operators[flight.key.1]) * SECOND
    }

    predicate WithinTheHour(key: Key) {
      key.1 in operators && config.SqlLimit(operators[key.1]) <= BACKSTOP_SECS
    }

    predicate PositiveLimits() {
      forall op :: op in operators ==> config.SqlLimit(operators[op]) > 0
    }
  }

  function HeldBy(s: State, w: Worker): set<Key> { set k | k in s.holds && s.holds[k] == w }

  function Without(holds: map<Key, Worker>, w: Worker): map<Key, Worker> {
    map k | k in holds && holds[k] != w :: holds[k]
  }

  function LockAll(holds: map<Key, Worker>, keys: set<Key>, w: Worker): map<Key, Worker> {
    map k | k in holds.Keys + keys :: if k in keys then w else holds[k]
  }

  function IdsOf(ids: map<Key, nat>, keys: set<Key>): set<nat> { set k | k in keys && k in ids :: ids[k] }

  /** DELETE the rows with these keys. */
  function Kill(s: State, keys: set<Key>, cause: Cause): State {
    s.(rows := s.rows - keys, ids := s.ids - keys,
       ledger := s.ledger.Add(cause, multiset(IdsOf(s.ids, keys))))
  }

  function Upsert(s: State, key: Key, row: Row, id: nat): State {
    s.(rows := Upserted(s.rows, key, row.(lastSeen := s.now)), ids := s.ids[key := id],
       born := if key in s.ids then s.born else s.born + 1)
  }

  function DoLeg(s: State, leg: LegId, key: Key, row: Option<Row>): State {
    if leg in s.flights || (row.Some? && key in s.holds) then s
    else if row.None? then s.(flights := s.flights[leg := Flight(key, None, s.now)])
    else
      var id := if key in s.ids then s.ids[key] else s.born;
      Upsert(s, key, row.value, id).(flights := s.flights[leg := Flight(key, Some(id), s.now)])
  }

  function DoReply(s: State, leg: LegId, end: bool): State {
    if leg !in s.flights || (end && s.flights[leg].key in s.holds) then s
    else
      var s1 := s.(flights := s.flights - {leg});
      if end then Kill(s1, {s.flights[leg].key}, ByReply) else s1
  }

  predicate CanLock(g: Gateway, s: State, w: Worker, picked: set<Key>) {
    HeldBy(s, w) == {} && g.config.batch >= 0 && IsClaim(g.config, g.operators, s.now, s.rows, s.holds.Keys, picked)
  }

  predicate CanBackstop(s: State, picked: set<Key>) {
    forall k :: k in picked ==> k in s.rows && k !in s.holds && Stale(s.now, s.rows[k])
  }

  function Apply(g: Gateway, s: State, step: Step): State {
    match step
    case Leg(leg, key, row) => DoLeg(s, leg, key, row)
    case Reply(leg, end) => DoReply(s, leg, end)
    case Terminal(key) => if key in s.holds then s else Kill(s, {key}, ByTerminalLeg)
    case Lock(w, picked) => if CanLock(g, s, w, picked) then s.(holds := LockAll(s.holds, picked, w)) else s
    case Claim(w) => Kill(s.(holds := Without(s.holds, w)), HeldBy(s, w), ByClaim)
    case Release(w) => s.(holds := Without(s.holds, w))
    case Backstop(picked) => if CanBackstop(s, picked) then Kill(s, picked, ByBackstop) else s
    case Tick(d) => s.(now := s.now + d)
  }

  function Run(g: Gateway, s: State, steps: seq<Step>): State
    decreases |steps|
  {
    if steps == [] then s else Run(g, Apply(g, s, steps[0]), steps[1..])
  }

  function Start(now: int): State {
    State(now, map[], map[], 0, Ledger(multiset{}, multiset{}, multiset{}, multiset{}), map[], map[])
  }

  // ---- conservation ------------------------------------------------------------------

  /** Every serial number below `born` belongs to exactly one live row or to
      exactly one entry of the ledger. */
  predicate Accounted(ids: map<Key, nat>, born: nat, dead: multiset<nat>) {
    && (forall k, l :: k in ids && l in ids && ids[k] == ids[l] ==> k == l)
    && (forall k :: k in ids ==> ids[k] < born && ids[k] !in dead)
    && (forall n :: n in dead ==> n < born && dead[n] == 1)
    && born == |ids| + |dead|
  }

  predicate Conserved(s: State) {
    s.rows.Keys == s.ids.Keys && Accounted(s.ids, s.born, s.ledger.All())
  }

  lemma {:induction false} InjectiveImage(ids: map<Key, nat>, keys: set<Key>)
    requires keys <= ids.Keys && forall k, l :: k in ids && l in ids && ids[k] == ids[l] ==> k == l
    ensures |IdsOf(ids, keys)| == |keys|
    decreases |keys|
  {
    if keys != {} {
      var k :| k in keys;
      InjectiveImage(ids, keys - {k});
      assert IdsOf(ids, keys) == IdsOf(ids, keys - {k}) + {ids[k]};
      assert ids[k] !in IdsOf(ids, keys - {k});
    }
  }

  lemma DyingCount(ids: map<Key, nat>, keys: set<Key>)
    requires forall k, l :: k in ids && l in ids && ids[k] == ids[l] ==> k == l
    ensures |ids| == |ids - keys| + |IdsOf(ids, keys)|
  {
    var dying := keys * ids.Keys;
    assert IdsOf(ids, keys) == IdsOf(ids, dying);
    InjectiveImage(ids, dying);
    assert ids.Keys == (ids - keys).Keys + dying;
    assert |ids.Keys| == |(ids - keys).Keys| + |dying|;
  }

  lemma DyingAreAccounted(ids: map<Key, nat>, born: nat, dead: multiset<nat>, keys: set<Key>)
    requires Accounted(ids, born, dead)
    ensures Accounted(ids - keys, born, dead + multiset(IdsOf(ids, keys)))
  {
    var gone := IdsOf(ids, keys);
    DyingCount(ids, keys);
    var dead' := dead + multiset(gone);
    forall n | n in dead' ensures n < born && dead'[n] == 1 {
      if n in gone { assert n !in dead; }
    }
    forall k | k in ids - keys ensures ids[k] !in dead' {
      assert ids[k] !in gone;
    }
  }

  lemma BirthIsAccounted(ids: map<Key, nat>, born: nat, dead: multiset<nat>, key: Key)
    requires Accounted(ids, born, dead) && key !in ids
    ensures Accounted(ids[key := born], born + 1, dead)
  {
    assert ids[key := born].Keys == ids.Keys + {key};
    assert |ids[key := born].Keys| == |ids.Keys| + 1;
  }

  lemma AddToAll(l: Ledger, cause: Cause, ids: multiset<nat>)
    ensures l.Add(cause, ids).All() == l.All() + ids
  {
  }

  lemma KillConserves(s: State, keys: set<Key>, cause: Cause)
    requires Conserved(s)
    ensures Conserved(Kill(s, keys, cause))
  {
    AddToAll(s.ledger, cause, multiset(IdsOf(s.ids, keys)));
    DyingAreAccounted(s.ids, s.born, s.ledger.All(), keys);
  }

  /** Conservation speaks of rows, serial numbers and the ledger only. */
  lemma SameRowsConserve(s: State, s': State)
    requires Conserved(s) && s'.rows == s.rows && s'.ids == s.ids && s'.born == s.born && s'.ledger == s.ledger
    ensures Conserved(s')
  {
  }

  lemma FirstUpsertConserves(s: State, key: Key, row: Row)
    requires Conserved(s) && key !in s.ids
    ensures Conserved(Upsert(s, key, row, s.born))
  {
    BirthIsAccounted(s.ids, s.born, s.ledger.All(), key);
  }

  lemma UpsertConserves(s: State, key: Key, row: Row)
    requires Conserved(s)
    ensures Conserved(Upsert(s, key, row, if key in s.ids then s.ids[key] else s.born))
  {
    if key !in s.ids {
      FirstUpsertConserves(s, key, row);
    } else {
      assert s.ids[key := s.ids[key]] == s.ids;
    }
  }

  lemma LegConserves(s: State, leg: LegId, key: Key, row: Option<Row>)
    requires Conserved(s)
    ensures Conserved(DoLeg(s, leg, key, row))
  {
    if row.Some? {
      UpsertConserves(s, key, row.value);
      if DoLeg(s, leg, key, row) != s {
        SameRowsConserve(Upsert(s, key, row.value, if key in s.ids then s.ids[key] else s.born),
            DoLeg(s, leg, key, row));
      }
    }
  }

  lemma ReplyConserves(s: State, leg: LegId, end: bool)
    requires Conserved(s)
    ensures Conserved(DoReply(s, leg, end))
  {
    if leg in s.flights {
      var s1 := s.(flights := s.flights - {leg});
      SameRowsConserve(s, s1);
      KillConserves(s1, {s.flights[leg].key}, ByReply);
    }
  }

  lemma ClaimConserves(g: Gateway, s: State, w: Worker)
    requires Conserved(s)
    ensures Conserved(Apply(g, s, Claim(w)))
  {
    var s1 := s.(holds := Without(s.holds, w));
    SameRowsConserve(s, s1);
    KillConserves(s1, HeldBy(s, w), ByClaim);
  }

  lemma LockConserves(g: Gateway, s: State, w: Worker, picked: set<Key>)
    requires Conserved(s)
    ensures Conserved(Apply(g, s, Lock(w, picked)))
  {
    SameRowsConserve(s, s.(holds := LockAll(s.holds, picked, w)));
  }

  lemma DeletingConserves(g: Gateway, s: State, step: Step)
    requires Conserved(s) && (step.Terminal? || step.Backstop?)
    ensures Conserved(Apply(g, s, step))
  {
    if step.Terminal? {
      KillConserves(s, {step.key}, ByTerminalLeg);
    } else {
      KillConserves(s, step.picked, ByBackstop);
    }
  }

  lemma QuietConserves(g: Gateway, s: State, step: Step)
    requires Conserved(s) && (step.Release? || step.Tick?)
    ensures Conserved(Apply(g, s, step))
  {
    SameRowsConserve(s, Apply(g, s, step));
  }

  lemma ApplyConserves(g: Gateway, s: State, step: Step)
    requires Conserved(s)
    ensures Conserved(Apply(g, s, step))
  {
    match step
    case Leg(leg, key, row) => LegConserves(s, leg, key, row);
    case Reply(leg, end) => ReplyConserves(s, leg, end);
    case Terminal(_) => DeletingConserves(g, s, step);
    case Claim(w) => ClaimConserves(g, s, w);
    case Backstop(_) => DeletingConserves(g, s, step);
    case Lock(w, picked) => LockConserves(g, s, w, picked);
    case Release(_) => QuietConserves(g, s, step);
    case Tick(_) => QuietConserves(g, s, step);
  }

  /** For any number of sweepers and legs, in any interleaving, overlapping and
      late ones included: every row ever inserted is live or ended in exactly
      one of the four ways. */
  lemma {:induction false} RowsAreConserved(g: Gateway, s: State, steps: seq<Step>)
    requires Conserved(s)
    ensures var s' := Run(g, s, steps);
            && Conserved(s')
            && s'.born == |s'.rows| + |s'.ledger.replies| + |s'.ledger.terminals| + |s'.ledger.claims|
                  + |s'.ledger.backstops|
    decreases |steps|
  {
    if steps != [] {
      ApplyConserves(g, s, steps[0]);
      RowsAreConserved(g, Apply(g, s, steps[0]), steps[1..]);
    }
  }

  /** A row is claimed by at most one sweeper, and a claimed row did not end in
      any other way, so its handler is notified at most once. */
  lemma ClaimedAtMostOnce(g: Gateway, now: int, steps: seq<Step>, id: nat)
    ensures var l := Run(g, Start(now), steps).ledger;
            l.claims[id] <= 1 && (id in l.claims ==> id !in l.replies && id !in l.terminals && id !in l.backstops)
  {
    RowsAreConserved(g, Start(now), steps);
    var l := Run(g, Start(now), steps).ledger;
    if id in l.All() { assert l.All()[id] == 1; }
    assert l.All()[id] == l.replies[id] + l.terminals[id] + l.claims[id] + l.backstops[id];
  }

  // ---- a session that is gone --------------------------------------------------------------

  /** Sweepers hold rows that are there. */
  predicate HoldsAreLive(s: State) { s.holds.Keys <= s.rows.Keys }

  lemma ApplyKeepsHoldsLive(g: Gateway, s: State, step: Step)
    requires HoldsAreLive(s)
    ensures HoldsAreLive(Apply(g, s, step))
  {
  }

  predicate NoLegFor(steps: seq<Step>, key: Key) {
    forall i :: 0 <= i < |steps| ==> !(steps[i].Leg? && steps[i].key == key && steps[i].row.Some?)
  }

  lemma GoneStaysGoneOneStep(g: Gateway, s: State, step: Step, key: Key)
    requires HoldsAreLive(s) && key !in s.rows && !(step.Leg? && step.key == key && step.row.Some?)
    ensures key !in Apply(g, s, step).rows
  {
  }

  /** Once its row is gone, a session is not claimed, ended or otherwise touched
      until a later leg inserts it again, whatever else happens. */
  lemma {:induction false} GoneStaysGone(g: Gateway, s: State, steps: seq<Step>, key: Key)
    requires HoldsAreLive(s) && key !in s.rows && NoLegFor(steps, key)
    ensures key !in Run(g, s, steps).rows && key !in Run(g, s, steps).holds
    decreases |steps|
  {
    if steps != [] {
      assert !(steps[0].Leg? && steps[0].key == key && steps[0].row.Some?);
      ApplyKeepsHoldsLive(g, s, steps[0]);
      GoneStaysGoneOneStep(g, s, steps[0], key);
      assert forall i :: 0 <= i < |steps[1..]| ==> steps[1..][i] == steps[i + 1];
      GoneStaysGone(g, Apply(g, s, steps[0]), steps[1..], key);
    }
  }

  /** After an END reply that got through (no sweeper holds the row at that
      moment) no sweeper claims the session until a leg re-inserts it. */
  lemma NoClaimAfterEnd(g: Gateway, s: State, steps: seq<Step>, leg: LegId)
    requires HoldsAreLive(s) && leg in s.flights && s.flights[leg].key !in s.holds
        && NoLegFor(steps, s.flights[leg].key)
    ensures s.flights[leg].key !in Run(g, Apply(g, s, Reply(leg, true)), steps).rows
    ensures s.flights[leg].key !in Run(g, Apply(g, s, Reply(leg, true)), steps).holds
  {
    ApplyKeepsHoldsLive(g, s, Reply(leg, true));
    GoneStaysGone(g, Apply(g, s, Reply(leg, true)), steps, s.flights[leg].key);
  }

  // ---- legs in flight, when handlers are on time ---------------------------------------------

  predicate Idle(s: State, key: Key) { forall l :: l in s.flights ==> s.flights[l].key != key }

  /** One leg of a session at a time, and no leg in flight reaches its operator's
      idle limit. */
  predicate Orderly(g: Gateway, s: State, step: Step) {
    match step
    case Leg(_, key, _) => Idle(s, key)
    case Terminal(key) => Idle(s, key)
    case Tick(d) => forall l :: l in s.flights ==> g.OnTime(s.flights[l], s.now + d)
    case _ => true
  }

  predicate OrderlyRun(g: Gateway, s: State, steps: seq<Step>)
    decreases |steps|
  {
    steps == [] || (Orderly(g, s, steps[0]) && OrderlyRun(g, Apply(g, s, steps[0]), steps[1..]))
  }

  /** A leg in flight still has the row it upserted, fresh and unlocked.  Only the
      backstop can have taken it, from an operator whose limit exceeds the hour. */
  predicate Safe(g: Gateway, s: State, leg: LegId) {
    leg in s.flights &&
    var f := s.flights[leg];
    && f.start <= s.now && g.OnTime(f, s.now)
    && (forall l :: l in s.flights && s.flights[l].key == f.key ==> l == leg)
    && (f.id.Some? ==>
          && f.key !in s.holds
          && (if f.key in s.rows then f.key in s.ids && s.ids[f.key] == f.id.value && s.rows[f.key].lastSeen == f.start
              else f.id.value in s.ledger.backstops && !g.WithinTheHour(f.key)))
  }

  predicate Inv(g: Gateway, s: State) {
    Conserved(s) && HoldsAreLive(s) && forall leg :: leg in s.flights ==> Safe(g, s, leg)
  }

  /** Keys of the legs in flight. */
  function Busy(s: State): set<Key> { set l | l in s.flights :: s.flights[l].key }

  lemma KillKeepsSafe(g: Gateway, s: State, keys: set<Key>, cause: Cause, l: LegId)
    requires Inv(g, s) && keys !! s.holds.Keys && l in s.flights
    requires (cause == ByBackstop && CanBackstop(s, keys)) || keys !! Busy(s)
    ensures Safe(g, Kill(s, keys, cause), l)
  {
    var key := s.flights[l].key;
    assert Safe(g, s, l) && key in Busy(s);
    if key in keys && key in s.rows { assert s.ids[key] in IdsOf(s.ids, keys); }
  }

  /** Deleting unlocked rows that no leg in flight relies on keeps everybody else safe. */
  lemma KillKeepsInv(g: Gateway, s: State, keys: set<Key>, cause: Cause)
    requires Inv(g, s) && keys !! s.holds.Keys
    requires (cause == ByBackstop && CanBackstop(s, keys)) || keys !! Busy(s)
    ensures Inv(g, Kill(s, keys, cause))
  {
    KillConserves(s, keys, cause);
    forall l | l in s.flights ensures Safe(g, Kill(s, keys, cause), l) { KillKeepsSafe(g, s, keys, cause, l); }
  }

  lemma LostLegKeepsSafe(g: Gateway, s: State, leg: LegId, key: Key)
    requires Inv(g, s) && g.PositiveLimits() && Idle(s, key)
    ensures var s' := DoLeg(s, leg, key, None); HoldsAreLive(s') && forall l :: l in s'.flights ==> Safe(g, s', l)
  {
    var s' := DoLeg(s, leg, key, None);
    forall l | l in s'.flights ensures Safe(g, s', l) { assert l in s.flights ==> Safe(g, s, l); }
  }

  lemma UpsertKeepsSafe(g: Gateway, s: State, leg: LegId, key: Key, row: Row)
    requires Inv(g, s) && g.PositiveLimits() && Idle(s, key)
    ensures var s' := DoLeg(s, leg, key, Some(row)); HoldsAreLive(s') && forall l :: l in s'.flights ==> Safe(g, s', l)
  {
    var s' := DoLeg(s, leg, key, Some(row));
    forall l | l in s'.flights ensures Safe(g, s', l) {
      if l in s.flights {
        assert Safe(g, s, l);
      } else {
        assert l == leg && s'.flights[l].key == key;
      }
    }
  }

  lemma LegKeepsInv(g: Gateway, s: State, leg: LegId, key: Key, row: Option<Row>)
    requires Inv(g, s) && g.PositiveLimits() && Idle(s, key)
    ensures Inv(g, DoLeg(s, leg, key, row))
  {
    LegConserves(s, leg, key, row);
    if row.Some? { UpsertKeepsSafe(g, s, leg, key, row.value); } else { LostLegKeepsSafe(g, s, leg, key); }
  }

  lemma LockKeepsInv(g: Gateway, s: State, w: Worker, picked: set<Key>)
    requires Inv(g, s) && CanLock(g, s, w, picked)
    ensures Inv(g, s.(holds := LockAll(s.holds, picked, w)))
  {
    var s' := s.(holds := LockAll(s.holds, picked, w));
    forall l | l in s'.flights ensures Safe(g, s', l) {
      assert Safe(g, s, l);
      var k := s.flights[l].key;
      if k in picked {
        // The row of a leg in flight is younger than its operator's limit.
        assert Expired(g.config, g.operators, s.now, k, s.rows[k]);
      }
    }
  }

  lemma ReleaseKeepsInv(g: Gateway, s: State, w: Worker)
    requires Inv(g, s)
    ensures Inv(g, s.(holds := Without(s.holds, w)))
  {
    var s' := s.(holds := Without(s.holds, w));
    forall l | l in s'.flights ensures Safe(g, s', l) { assert Safe(g, s, l); }
  }

  lemma ClaimKeepsInv(g: Gateway, s: State, w: Worker)
    requires Inv(g, s)
    ensures Inv(g, Apply(g, s, Claim(w)))
  {
    ApplyConserves(g, s, Claim(w));
    var s' := Apply(g, s, Claim(w));
    forall l | l in s'.flights ensures Safe(g, s', l) { assert Safe(g, s, l); }
  }

  lemma ReplyKeepsInv(g: Gateway, s: State, leg: LegId, end: bool)
    requires Inv(g, s)
    ensures Inv(g, DoReply(s, leg, end))
  {
    if leg in s.flights && !(end && s.flights[leg].key in s.holds) {
      var key, s1 := s.flights[leg].key, s.(flights := s.flights - {leg});
      assert Safe(g, s, leg);
      forall l | l in s1.flights ensures Safe(g, s1, l) && s1.flights[l].key != key { assert Safe(g, s, l); }
      if end { KillKeepsInv(g, s1, {key}, ByReply); }
    }
  }

  lemma TickKeepsInv(g: Gateway, s: State, d: nat)
    requires Inv(g, s) && Orderly(g, s, Tick(d))
    ensures Inv(g, Apply(g, s, Tick(d)))
  {
    var s' := Apply(g, s, Tick(d));
    forall l | l in s'.flights ensures Safe(g, s', l) { assert Safe(g, s, l); }
  }

  lemma ApplyKeepsInv(g: Gateway, s: State, step: Step)
    requires Inv(g, s) && g.PositiveLimits() && Orderly(g, s, step)
    ensures Inv(g, Apply(g, s, step))
  {
    match step
    case Leg(leg, key, row) => LegKeepsInv(g, s, leg, key, row);
    case Reply(leg, end) => ReplyKeepsInv(g, s, leg, end);
    case Terminal(key) => if key !in s.holds { KillKeepsInv(g, s, {key}, ByTerminalLeg); }
    case Lock(w, picked) => if CanLock(g, s, w, picked) { LockKeepsInv(g, s, w, picked); }
    case Claim(w) => ClaimKeepsInv(g, s, w);
    case Release(w) => ReleaseKeepsInv(g, s, w);
    case Backstop(picked) => if CanBackstop(s, picked) { KillKeepsInv(g, s, picked, ByBackstop); }
    case Tick(d) => TickKeepsInv(g, s, d);
  }

  lemma {:induction false} RunKeepsInv(g: Gateway, s: State, steps: seq<Step>)
    requires Inv(g, s) && g.PositiveLimits() && OrderlyRun(g, s, steps)
    ensures Inv(g, Run(g, s, steps))
    decreases |steps|
  {
    if steps != [] {
      ApplyKeepsInv(g, s, steps[0]);
      RunKeepsInv(g, Apply(g, s, steps[0]), steps[1..]);
    }
  }

  /** In an orderly run no sweeper claims or locks a row between a leg's upsert
      and its reply. */
  lemma NoClaimInFlight(g: Gateway, now: int, steps: seq<Step>, leg: LegId)
    requires g.PositiveLimits() && OrderlyRun(g, Start(now), steps)
    requires leg in Run(g, Start(now), steps).flights && Run(g, Start(now), steps).flights[leg].id.Some?
    ensures var s := Run(g, Start(now), steps);
            var f := s.flights[leg];
            && f.id.value !in s.ledger.claims && f.key !in s.holds
            && (f.key in s.rows ==> f.key in s.ids && s.ids[f.key] == f.id.value && s.rows[f.key].lastSeen == f.start)
            && (f.key !in s.rows ==> f.id.value in s.ledger.backstops && !g.WithinTheHour(f.key))
  {
    RunKeepsInv(g, Start(now), steps);
    var s := Run(g, Start(now), steps);
    assert Safe(g, s, leg);
    var f := s.flights[leg];
    var l, id := s.ledger, f.id.value;
    assert l.All()[id] == l.replies[id] + l.terminals[id] + l.claims[id] + l.backstops[id];
    if f.key !in s.rows { assert id in l.All(); }
  }

  // ---- why handlers have to be on time -----------------------------------------------------------

  lemma RunCons(g: Gateway, s: State, step: Step, rest: seq<Step>)
    ensures Run(g, s, [step] + rest) == Run(g, Apply(g, s, step), rest)
  {
    assert ([step] + rest)[1..] == rest;
  }

  /** A leg, a handler that takes longer than the limit, and a sweeper. */
  function LateRun(leg: LegId, key: Key, row: Row, micros: nat, w: Worker): seq<Step> {
    [Leg(leg, key, Some(row))] + ([Tick(micros)] + ([Lock(w, {key})] + ([Claim(w)] + [])))
  }

  /** With a handler that is late by anything up to the end of the claim window,
      a sweeper can claim the row while its leg is still in flight. */
  lemma LateLegCanBeClaimed(g: Gateway, now: int, leg: LegId, key: Key, row: Row, micros: nat, w: Worker)
    requires key.1 in g.operators && g.config.batch >= 1
    requires g.config.SqlLimit(g.operators[key.1]) * SECOND < micros <= g.config.maxAge * SECOND
    ensures var s := Run(g, Start(now), LateRun(leg, key, row, micros, w));
            leg in s.flights && s.flights[leg].id == Some(0) && 0 in s.ledger.claims
  {
    var s0 := Start(now);
    var s1 := Apply(g, s0, Leg(leg, key, Some(row)));
    var s2 := Apply(g, s1, Tick(micros));
    assert s2.rows.Keys == {key} && s2.rows[key].lastSeen == now && s2.now == now + micros;
    assert Eligible(g.config, g.operators, s2.now, s2.rows, {}) == {key};
    assert HeldBy(s2, w) == {} && s2.holds.Keys == {};
    assert CanLock(g, s2, w, {key});
    var s3 := Apply(g, s2, Lock(w, {key}));
    assert HeldBy(s3, w) == {key};
    var s4 := Apply(g, s3, Claim(w));
    assert IdsOf(s3.ids, {key}) == {0} by { assert s3.ids == map[key := 0]; assert 0 in IdsOf(s3.ids, {key}); }
    RunCons(g, s0, Leg(leg, key, Some(row)), [Tick(micros)] + ([Lock(w, {key})] + ([Claim(w)] + [])));
    RunCons(g, s1, Tick(micros), [Lock(w, {key})] + ([Claim(w)] + []));
    RunCons(g, s2, Lock(w, {key}), [Claim(w)] + []);
    RunCons(g, s3, Claim(w), []);
  }
}
