/**
 How rows of live sessions come and go, statement by statement, in every
 interleaving: who may delete which row when, and what a leg leaves behind.
 */
module SweepRules {
  import opened Options
  import opened ExpiryConfig
  import opened SessionCache
  import opened SessionSweeps

  /** Silent for longer than its operator's limit, in microseconds. */
  predicate Idle(g: Gateway, now: int, key: Key, row: Row) {
    key.1 in g.operators && row.lastSeen < now - g.config.SqlLimit(g.operators[key.1]) * 1_000_000
  }

  /** Every row a sweeper has locked is there, and idle. */
  predicate LockedAreIdle(g: Gateway, s: State) {
    forall k :: k in s.holds ==> k in s.rows && Idle(g, s.now, k, s.rows[k])
  }

  lemma LegKeepsLockedIdle(g: Gateway, s: State, leg: LegId, key: Key, row: Option<Row>)
    requires LockedAreIdle(g, s)
    ensures LockedAreIdle(g, DoLeg(s, leg, key, row))
  {
  }

  lemma LockKeepsLockedIdle(g: Gateway, s: State, w: Worker, picked: set<Key>)
    requires LockedAreIdle(g, s) && CanLock(g, s, w, picked)
    ensures LockedAreIdle(g, s.(holds := LockAll(s.holds, picked, w)))
  {
    forall k | k in picked ensures k in s.rows && Idle(g, s.now, k, s.rows[k]) {
      assert k in Eligible(g.config, g.operators, s.now, s.rows, s.holds.Keys);
    }
  }

  lemma StepKeepsLockedIdle(g: Gateway, s: State, step: Step)
    requires LockedAreIdle(g, s)
    ensures LockedAreIdle(g, Apply(g, s, step))
  {
    match step
    case Leg(leg, key, row) => LegKeepsLockedIdle(g, s, leg, key, row);
    case Lock(w, picked) => if CanLock(g, s, w, picked) { LockKeepsLockedIdle(g, s, w, picked); }
    case _ =>
  }

  lemma {:induction false} RunKeepsLockedIdle(g: Gateway, s: State, steps: seq<Step>)
    requires LockedAreIdle(g, s)
    ensures LockedAreIdle(g, Run(g, s, steps))
    decreases |steps|
  {
    if steps != [] {
      StepKeepsLockedIdle(g, s, steps[0]);
      RunKeepsLockedIdle(g, Apply(g, s, steps[0]), steps[1..]);
    }
  }

  /** The steps that delete this row, when nobody else has it locked. */
  predicate Ends(s: State, step: Step, key: Key) {
    match step
    case Reply(leg, end) => end && leg in s.flights && s.flights[leg].key == key && key !in s.holds
    case Terminal(k) => k == key && key !in s.holds
    case Claim(w) => key in s.holds && s.holds[key] == w
    case Backstop(picked) =>
      key in picked &&
      forall k :: k in picked ==> k in s.rows && k !in s.holds && s.rows[k].lastSeen < s.now - 3_600_000_000
    case _ => false
  }

  /** In any interleaving a row goes exactly when its session's END reply is out,
      when the network ends the session, when the sweeper that locked it commits,
      or when the backstop takes it after an hour. */
  lemma RowEndsExactly(g: Gateway, now: int, steps: seq<Step>, step: Step, key: Key)
    requires key in Run(g, Start(now), steps).rows
    ensures var s := Run(g, Start(now), steps);
            key !in Apply(g, s, step).rows <==> Ends(s, step, key)
  {
  }

  /** Every end is put down under its own cause, and no other end is. */
  predicate Recorded(s: State, s': State, step: Step, key: Key) {
    key in s.ids &&
    match step
    case Reply(_, _) => s'.ledger == s.ledger.(replies := s.ledger.replies + multiset{s.ids[key]})
    case Terminal(_) => s'.ledger == s.ledger.(terminals := s.ledger.terminals + multiset{s.ids[key]})
    case Claim(_) => s'.ledger == s.ledger.(claims := s'.ledger.claims) && s.ids[key] in s'.ledger.claims
    case Backstop(_) => s'.ledger == s.ledger.(backstops := s'.ledger.backstops) && s.ids[key] in s'.ledger.backstops
    case _ => false
  }

  lemma KilledIsRecorded(s: State, keys: set<Key>, cause: Cause, key: Key)
    requires key in keys && key in s.ids
    ensures s.ids[key] in IdsOf(s.ids, keys)
    ensures Kill(s, keys, cause).ledger == s.ledger.Add(cause, multiset(IdsOf(s.ids, keys)))
  {
  }

  lemma OneKilled(s: State, key: Key, cause: Cause)
    requires key in s.ids
    ensures Kill(s, {key}, cause).ledger == s.ledger.Add(cause, multiset{s.ids[key]})
  {
    assert IdsOf(s.ids, {key}) == {s.ids[key]};
  }

  lemma StepRecords(g: Gateway, s: State, step: Step, key: Key)
    requires key in s.ids && Ends(s, step, key)
    ensures Recorded(s, Apply(g, s, step), step, key)
  {
    match step
    case Reply(leg, _) => OneKilled(s.(flights := s.flights - {leg}), key, ByReply);
    case Terminal(_) => OneKilled(s, key, ByTerminalLeg);
    case Claim(w) => KilledIsRecorded(s.(holds := Without(s.holds, w)), HeldBy(s, w), ByClaim, key);
    case Backstop(picked) => KilledIsRecorded(s, picked, ByBackstop, key);
    case _ =>
  }

  lemma EndsAreRecorded(g: Gateway, now: int, steps: seq<Step>, step: Step, key: Key)
    requires key in Run(g, Start(now), steps).rows && Ends(Run(g, Start(now), steps), step, key)
    ensures Recorded(Run(g, Start(now), steps), Apply(g, Run(g, Start(now), steps), step), step, key)
  {
    RowsAreConserved(g, Start(now), steps);
    StepRecords(g, Run(g, Start(now), steps), step, key);
  }

  /** What one claim does: it deletes the rows its sweeper has locked, every one
      of them idle, records them as claimed, and nothing else is claimed ever. */
  lemma OnlyIdleRowsAreClaimed(g: Gateway, now: int, steps: seq<Step>, step: Step)
    ensures var s := Run(g, Start(now), steps);
            var s' := Apply(g, s, step);
            if step.Claim? then
              && s'.rows == s.rows - HeldBy(s, step.worker) && HeldBy(s', step.worker) == {}
              && s'.ledger.claims == s.ledger.claims + multiset(IdsOf(s.ids, HeldBy(s, step.worker)))
              && forall k :: k in HeldBy(s, step.worker) ==> k in s.rows && Idle(g, s.now, k, s.rows[k])
            else s'.ledger.claims == s.ledger.claims
  {
    RunKeepsLockedIdle(g, Start(now), steps);
  }

  /** The rows there are to claim: idle, not too old, and locked by nobody. */
  function Due(g: Gateway, s: State): set<Key> {
    set k | k in s.rows && k !in s.holds && Idle(g, s.now, k, s.rows[k])
            && s.rows[k].lastSeen >= s.now - g.config.maxAge * 1_000_000
  }

  lemma DueIsEligible(g: Gateway, s: State)
    ensures Due(g, s) == Eligible(g.config, g.operators, s.now, s.rows, s.holds.Keys)
  {
  }

  lemma LockedAndReleased(holds: map<Key, Worker>, w: Worker, picked: set<Key>)
    requires (forall k :: k in holds ==> holds[k] != w) && picked !! holds.Keys
    ensures Without(LockAll(holds, picked, w), w) == holds
    ensures (set k | k in LockAll(holds, picked, w) && LockAll(holds, picked, w)[k] == w) == picked
  {
  }

  lemma LockThenClaim(g: Gateway, s: State, w: Worker, picked: set<Key>)
    requires CanLock(g, s, w, picked)
    ensures var s' := Apply(g, Apply(g, s, Lock(w, picked)), Claim(w));
            s'.rows == s.rows - picked && s'.holds == s.holds
  {
    forall k | k in s.holds ensures s.holds[k] != w { assert s.holds[k] == w ==> k in HeldBy(s, w); }
    assert picked !! s.holds.Keys;
    LockedAndReleased(s.holds, w, picked);
    assert HeldBy(Apply(g, s, Lock(w, picked)), w) == picked;
  }

  /** A sweep takes the oldest rows that are due, as many as the batch allows,
      and leaves everybody else's locks alone. */
  lemma SweepTakesTheOldest(g: Gateway, s: State, w: Worker, picked: set<Key>)
    requires HeldBy(s, w) == {} && g.config.batch >= 0 && picked <= Due(g, s)
    requires |picked| == if g.config.batch < |Due(g, s)| then g.config.batch else |Due(g, s)|
    requires forall p, k :: p in picked && k in Due(g, s) - picked ==> s.rows[p].lastSeen <= s.rows[k].lastSeen
    ensures var s' := Apply(g, Apply(g, s, Lock(w, picked)), Claim(w));
            s'.rows == s.rows - picked && s'.holds == s.holds
  {
    DueIsEligible(g, s);
    LockThenClaim(g, s, w, picked);
  }

  /** A leg that brings a trail leaves the session a row seen now, with that
      trail; a row that was there keeps everything else, and no other changes. */
  lemma LegLeavesItsRow(g: Gateway, s: State, leg: LegId, key: Key, row: Row)
    requires leg !in s.flights && key !in s.holds
    ensures var s' := Apply(g, s, Step.Leg(leg, key, Some(row)));
            && key in s'.rows && s'.rows[key].ussdString == row.ussdString && s'.rows[key].lastSeen == s.now
            && s'.rows.Keys == s.rows.Keys + {key} && leg in s'.flights && s'.flights[leg].key == key
            && (forall k :: k in s.rows && k != key ==> s'.rows[k] == s.rows[k])
            && (if key in s.rows
                then s'.rows[key].serviceCode == s.rows[key].serviceCode && s'.rows[key].msisdn == s.rows[key].msisdn
                     && s'.rows[key].shortcodeId == s.rows[key].shortcodeId
                else s'.rows[key] == row.(lastSeen := s.now))
  {
  }
}
