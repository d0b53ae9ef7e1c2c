/**
 One leg through the pipeline, and whole runs of legs: what the session rows
 hold, where each leg is forwarded, and when a row ends.
 */
module Legs {
  import opened Options
  import opened Text
  import opened Dialing
  import opened Routing
  import opened SessionCache
  import opened Adapters

  /** What the handler did: answered, answered END, failed, or the call raised. */
  datatype Reply = Con | End | Failed | Raised

  datatype Outcome =
    | Rejected                                   // HTTP 400
    | Acked                                      // delivery receipt
    | Terminated(notified: Option<string>)       // acked with END; whose handler is told
    | Canned                                     // not configured, or not active
    | Forwarded(code: string, event: Event, trail: string, ends: bool)

  /** Registered production codes; the value says whether the code is active. */
  type Shortcodes = map<string, bool>

  predicate Active(shortcodes: Shortcodes, code: string) { code in shortcodes && shortcodes[code] }

  function Decide(shortcodes: Shortcodes, ur: UnifiedRequest, reply: Reply): Outcome {
    if ur.event == DeliveryAck then Acked
    else if Terminal(ur.event) then
      Terminated(if ur.serviceCode != "" && Active(shortcodes, ur.serviceCode) then Some(ur.serviceCode) else None)
    else if !Active(shortcodes, ur.serviceCode) then Canned
    else Forwarded(ur.serviceCode, ur.event, ur.ussdString, reply == End || reply == Failed)
  }

  predicate Deletes(o: Outcome) { o.Terminated? || o.Canned? || (o.Forwarded? && o.ends) }

  /** A leg as an adapter read it, the codes registered when it came in, the
      time, and what the handler did. */
  datatype Leg = Leg(reading: Reading, shortcodes: Shortcodes, now: int, reply: Reply)

  datatype Handled = Handled(rows: map<Key, Row>, request: Option<UnifiedRequest>, outcome: Outcome)

  function SessionOf(r: Reading): string { if r.Refused? then "" else r.session }

  function KeyOf(op: OpId, leg: Leg): Key { (SessionOf(leg.reading), op) }

  function Handle(op: OpId, rows: map<Key, Row>, leg: Leg): Handled {
    var p := ApplyReading(rows, op, leg.reading, leg.now);
    if p.request.None? then Handled(p.rows, None, Rejected)
    else
      var o := Decide(leg.shortcodes, p.request.value, leg.reply);
      Handled(if Deletes(o) then p.rows - {KeyOf(op, leg)} else p.rows, p.request, o)
  }

  /** _terminal_notify_skip_reason: None when the handler is to be told. */
  function SkipReason(sc: Option<bool>): Option<string> {
    if sc.None? then Some("unresolved") else if !sc.value then Some("shortcode_inactive") else None
  }

  /** A terminal leg: acked with END, its row deleted, its handler told. */
  method EndSession(db: SessionTable, op: OpId, r: UnifiedRequest, shortcodes: Shortcodes) returns (out: Outcome)
    requires Terminal(r.event)
    modifies db`rows
    ensures out == Decide(shortcodes, r, Con) && db.rows == old(db.rows) - {(r.session, op)}
  {
    var sc := if r.serviceCode != "" && r.serviceCode in shortcodes then Some(shortcodes[r.serviceCode]) else None;
    db.ExpireActiveSession((r.session, op));
    var skip := SkipReason(sc);
    out := Terminated(if skip.None? then Some(r.serviceCode) else None);
  }

  /** The steps after parse(). */
  method Serve(db: SessionTable, op: OpId, r: UnifiedRequest, shortcodes: Shortcodes, reply: Reply)
      returns (out: Outcome)
    modifies db`rows
    ensures out == Decide(shortcodes, r, reply)
    ensures db.rows == if Deletes(out) then old(db.rows) - {(r.session, op)} else old(db.rows)
  {
    if r.event == DeliveryAck { return Acked; }
    if Terminal(r.event) {
      out := EndSession(db, op, r, shortcodes);
      return;
    }
    var found := r.serviceCode in shortcodes;
    if found && !shortcodes[r.serviceCode] {
      db.ExpireActiveSession((r.session, op));
      return Canned;
    }
    if !found {
      db.ExpireActiveSession((r.session, op));
      return Canned;
    }
    var action := if reply == Failed then End else reply;
    if action == End { db.ExpireActiveSession((r.session, op)); }
    out := Forwarded(r.serviceCode, r.event, r.ussdString, action == End);
  }

  lemma RequestKeepsSession(rows: map<Key, Row>, op: OpId, r: Reading, now: int)
    ensures var ur := ApplyReading(rows, op, r, now).request; ur.Some? ==> ur.value.session == SessionOf(r)
  {
  }

  /** The pipeline every route runs through. */
  method HandleUssd(db: SessionTable, op: OpId, w: Wire, shortcodes: Shortcodes, now: int, reply: Reply)
    returns (ur: Option<UnifiedRequest>, out: Outcome)
    modifies db`rows
    ensures Handled(db.rows, ur, out) == Handle(op, old(db.rows), Leg(Read(shortcodes.Keys, w), shortcodes, now, reply))
  {
    ghost var reading := Read(shortcodes.Keys, w);
    RequestKeepsSession(db.rows, op, reading, now);
    ur := Parse(db, shortcodes.Keys, op, w, now);
    if ur.None? { return ur, Rejected; }
    out := Serve(db, op, ur.value, shortcodes, reply);
  }

  // ---- lives of rows ----------------------------------------------------------------------

  /** What happened to a row since it was inserted. */
  datatype Life = Life(code: string, opening: string, inputs: seq<string>, events: seq<Event>, lastLeg: int)

  /** The input a leg carries. */
  function InputOf(r: Reading): string {
    match r
    case OpensOrTypes(_, _, _, _, input, _) => input
    case Types(_, _, input, _, _, _, _) => input
    case _ => ""
  }

  /** How a leg of this session changes the row's history: a START opens or
      re-opens it, an INPUT on a live row adds to it, the rest leaves it. */
  function Lived(life: Option<Life>, ur: UnifiedRequest, leg: Leg): Option<Life> {
    if ur.event == Start then
      if life.None? then Some(Life(ur.serviceCode, ur.ussdString, [], [Start], leg.now))
      else Some(life.value.(opening := ur.ussdString, inputs := [], events := life.value.events + [Start],
          lastLeg := leg.now))
    else if ur.event == Input && life.Some? then
      Some(life.value.(inputs := life.value.inputs + [InputOf(leg.reading)], events := life.value.events + [Input],
          lastLeg := leg.now))
    else life
  }

  /** Any legs, of any sessions, one after the other. */
  function RunRows(op: OpId, rows: map<Key, Row>, legs: seq<Leg>): map<Key, Row>
    decreases |legs|
  {
    if legs == [] then rows else RunRows(op, Handle(op, rows, legs[0]).rows, legs[1..])
  }

  function LifeStep(op: OpId, rows: map<Key, Row>, key: Key, life: Option<Life>, leg: Leg): Option<Life> {
    var h := Handle(op, rows, leg);
    if KeyOf(op, leg) != key || h.request.None? then life
    else if Deletes(h.outcome) then None
    else Lived(life, h.request.value, leg)
  }

  function RunLife(op: OpId, rows: map<Key, Row>, key: Key, life: Option<Life>, legs: seq<Leg>): Option<Life>
    decreases |legs|
  {
    if legs == [] then life
    else RunLife(op, Handle(op, rows, legs[0]).rows, key, LifeStep(op, rows, key, life, legs[0]), legs[1..])
  }

  /** The row, if there is one, is what its history says. */
  predicate Agrees(rows: map<Key, Row>, key: Key, life: Option<Life>) {
    && (key in rows <==> life.Some?)
    && (key in rows ==>
          && rows[key].serviceCode == life.value.code
          && rows[key].ussdString == Trail(life.value.opening, life.value.inputs)
          && rows[key].lastSeen == life.value.lastLeg
          && |life.value.events| > 0 && life.value.events[0] == Start)
  }

  lemma {:induction false} TrailGrows(prior: string, inputs: seq<string>, input: string)
    ensures Trail(prior, inputs + [input]) == Accumulate(Trail(prior, inputs), input)
    decreases |inputs|
  {
    if inputs == [] {
      assert inputs + [input] == [input] && [input][1..] == [];
    } else {
      assert (inputs + [input])[1..] == inputs[1..] + [input];
      TrailGrows(Accumulate(prior, inputs[0]), inputs[1..], input);
    }
  }

  /** What a leg does to the rows, whichever network sent it. */
  predicate Effect(rows: map<Key, Row>, key: Key, input: string, now: int, p: Parsed) {
    if p.request.None? then p.rows == rows
    else
      var ur := p.request.value;
      match ur.event
      case Start => p.rows == Upserted(rows, key, Row(ur.serviceCode, None, ur.msisdn, ur.ussdString, now))
      case Input =>
        if key in rows then
          && p.rows == rows[key := Extended(rows[key], input, now)]
          && ur.ussdString == Accumulate(rows[key].ussdString, input)
          && (ur.serviceCode == rows[key].serviceCode || rows[key].serviceCode == "")
        else p.rows == rows
      case _ => p.rows == rows && ur.serviceCode == if key in rows then rows[key].serviceCode else ""
  }

  lemma LegEffect(op: OpId, rows: map<Key, Row>, leg: Leg)
    ensures Effect(rows, KeyOf(op, leg), InputOf(leg.reading), leg.now, ApplyReading(rows, op, leg.reading, leg.now))
  {
  }

  lemma LivedAgrees(rows: map<Key, Row>, key: Key, life: Option<Life>, leg: Leg, p: Parsed)
    requires Agrees(rows, key, life) && Effect(rows, key, InputOf(leg.reading), leg.now, p) && p.request.Some?
    ensures Agrees(p.rows, key, Lived(life, p.request.value, leg))
  {
    var ur := p.request.value;
    if ur.event == Input && key in rows {
      TrailGrows(life.value.opening, life.value.inputs, InputOf(leg.reading));
    }
  }

  lemma OthersUntouched(op: OpId, rows: map<Key, Row>, leg: Leg, key: Key)
    requires key != KeyOf(op, leg)
    ensures var rows' := Handle(op, rows, leg).rows;
            (key in rows' <==> key in rows) && (key in rows ==> rows'[key] == rows[key])
  {
    LegEffect(op, rows, leg);
  }

  lemma StepAgrees(op: OpId, rows: map<Key, Row>, key: Key, life: Option<Life>, leg: Leg)
    requires Agrees(rows, key, life)
    ensures Agrees(Handle(op, rows, leg).rows, key, LifeStep(op, rows, key, life, leg))
  {
    if KeyOf(op, leg) != key {
      OthersUntouched(op, rows, leg, key);
    } else {
      var p := ApplyReading(rows, op, leg.reading, leg.now);
      LegEffect(op, rows, leg);
      if p.request.Some? { LivedAgrees(rows, key, life, leg, p); }
    }
  }

  lemma {:induction false} RunAgrees(op: OpId, rows: map<Key, Row>, key: Key, life: Option<Life>, legs: seq<Leg>)
    requires Agrees(rows, key, life)
    ensures Agrees(RunRows(op, rows, legs), key, RunLife(op, rows, key, life, legs))
    decreases |legs|
  {
    if legs != [] {
      StepAgrees(op, rows, key, life, legs[0]);
      RunAgrees(op, Handle(op, rows, legs[0]).rows, key, LifeStep(op, rows, key, life, legs[0]), legs[1..]);
    }
  }

  /** After any run of legs, from an empty table: the trail in a row is the
      '*'-join of what its last START was dialed with (if anything) and every
      later input that is not blank, the row's code is the one it was inserted
      with, and its clock is the last leg that touched it. */
  lemma RowIsItsHistory(op: OpId, key: Key, legs: seq<Leg>)
    ensures var rows := RunRows(op, map[], legs);
            var life := RunLife(op, map[], key, None, legs);
            && (key in rows <==> life.Some?)
            && (key in rows ==>
                  && rows[key].ussdString == Join(NonEmpty(life.value.opening) + Kept(life.value.inputs))
                  && rows[key].serviceCode == life.value.code
                  && rows[key].lastSeen == life.value.lastLeg)
  {
    RunAgrees(op, map[], key, None, legs);
    var life := RunLife(op, map[], key, None, legs);
    if life.Some? { TrailIsJoin(life.value.opening, life.value.inputs); }
  }

  /** No leg ends this session's row. */
  predicate Survives(op: OpId, rows: map<Key, Row>, key: Key, legs: seq<Leg>)
    decreases |legs|
  {
    key in rows && (legs == [] || Survives(op, Handle(op, rows, legs[0]).rows, key, legs[1..]))
  }

  /** Code, short-code id and subscriber of a row never change while it lives. */
  lemma {:induction false} CodeIsFixedForLife(op: OpId, rows: map<Key, Row>, key: Key, legs: seq<Leg>)
    requires Survives(op, rows, key, legs)
    ensures key in RunRows(op, rows, legs)
    ensures var row := RunRows(op, rows, legs)[key];
            && row.serviceCode == rows[key].serviceCode && row.shortcodeId == rows[key].shortcodeId
            && row.msisdn == rows[key].msisdn
    decreases |legs|
  {
    if legs != [] {
      LegEffect(op, rows, legs[0]);
      if KeyOf(op, legs[0]) != key { OthersUntouched(op, rows, legs[0], key); }
      CodeIsFixedForLife(op, Handle(op, rows, legs[0]).rows, key, legs[1..]);
    }
  }

  /** An INPUT leg that finds its row is forwarded, if at all, with the row's
      code and the grown trail; only a row cached under an empty code falls back
      to the path the leg came in on. */
  lemma InputFollowsTheRow(op: OpId, rows: map<Key, Row>, leg: Leg)
    requires var h := Handle(op, rows, leg);
             h.outcome.Forwarded? && h.outcome.event == Input && KeyOf(op, leg) in rows
    ensures var h := Handle(op, rows, leg); var row := rows[KeyOf(op, leg)];
            && (row.serviceCode != "" ==> h.outcome.code == row.serviceCode)
            && h.outcome.trail == Accumulate(row.ussdString, InputOf(leg.reading))
  {
    LegEffect(op, rows, leg);
  }

  /** A START on a live row is forwarded with the code dialed now, while the row
      keeps the code dialed first: the handler of the new code gets the START, the
      handler of the row's code the next INPUT.  They are the same exactly when
      the dial routes to the row's own code. */
  lemma RedialDriftsExactly(op: OpId, rows: map<Key, Row>, start: Leg, input: Leg)
    requires start.reading.Opens? && input.reading.Types? && KeyOf(op, start) == KeyOf(op, input)
    requires KeyOf(op, start) in rows && rows[KeyOf(op, start)].serviceCode != ""
    requires Handle(op, rows, start).outcome.Forwarded? && !Handle(op, rows, start).outcome.ends
    requires Handle(op, Handle(op, rows, start).rows, input).outcome.Forwarded?
    ensures Handle(op, rows, start).outcome.code == start.reading.to.code
    ensures Handle(op, Handle(op, rows, start).rows, input).outcome.code == rows[KeyOf(op, start)].serviceCode
    ensures Handle(op, rows, start).outcome.code == Handle(op, Handle(op, rows, start).rows, input).outcome.code
       <==> start.reading.to.code == rows[KeyOf(op, start)].serviceCode
  {
    LegEffect(op, rows, start);
    InputFollowsTheRow(op, Handle(op, rows, start).rows, input);
  }

  /** A subscriber who dials b while a session of a is live: the START goes to b,
      the choice typed next to a. */
  lemma RedialCanDrift(op: OpId, session: string, a: string, b: string, now: int)
    requires a != "" && a != b
    ensures var key := (session, op);
            var rows := map[key := Row(a, None, "", "", now)];
            var codes := map[a := true, b := true];
            var start := Leg(Opens("", session, PrefixMatch(b, ""), ""), codes, now, Con);
            var input := Leg(Types("", session, "1", "", "1", "", false), codes, now, Con);
            && Handle(op, rows, start).outcome.Forwarded? && Handle(op, rows, start).outcome.code == b
            && Handle(op, Handle(op, rows, start).rows, input).outcome.Forwarded?
            && Handle(op, Handle(op, rows, start).rows, input).outcome.code == a
  {
  }

  // ---- the same, said about the legs ---------------------------------------------------------

  predicate Carries(op: OpId, key: Key, leg: Leg) {
    KeyOf(op, leg) == key && (leg.reading.Types? || leg.reading.OpensOrTypes?)
  }

  /** The inputs these legs carry for this session, as they came in. */
  function InputsFor(op: OpId, key: Key, legs: seq<Leg>): seq<string> {
    if legs == [] then []
    else (if Carries(op, key, legs[0]) then [InputOf(legs[0].reading)] else []) + InputsFor(op, key, legs[1..])
  }

  predicate NoReopening(op: OpId, key: Key, legs: seq<Leg>) {
    forall i :: 0 <= i < |legs| ==> !(KeyOf(op, legs[i]) == key && legs[i].reading.Opens?)
  }

  lemma {:induction false} TrailCollects(op: OpId, rows: map<Key, Row>, key: Key, legs: seq<Leg>)
    requires Survives(op, rows, key, legs) && NoReopening(op, key, legs)
    ensures key in RunRows(op, rows, legs)
    ensures RunRows(op, rows, legs)[key].ussdString == Trail(rows[key].ussdString, InputsFor(op, key, legs))
    decreases |legs|
  {
    if legs != [] {
      var leg := legs[0];
      assert !(KeyOf(op, leg) == key && leg.reading.Opens?);
      assert forall i :: 0 <= i < |legs[1..]| ==> legs[1..][i] == legs[i + 1];
      OneInput(op, rows, key, leg);
      TrailCollects(op, Handle(op, rows, leg).rows, key, legs[1..]);
      if !Carries(op, key, leg) { assert [] + InputsFor(op, key, legs[1..]) == InputsFor(op, key, legs[1..]); }
    }
  }

  lemma OneInput(op: OpId, rows: map<Key, Row>, key: Key, leg: Leg)
    requires key in rows && key in Handle(op, rows, leg).rows && !(KeyOf(op, leg) == key && leg.reading.Opens?)
    ensures Handle(op, rows, leg).rows[key].ussdString
         == if Carries(op, key, leg) then Accumulate(rows[key].ussdString, InputOf(leg.reading))
             else rows[key].ussdString
  {
    if KeyOf(op, leg) != key { OthersUntouched(op, rows, leg, key); } else { LegEffect(op, rows, leg); }
  }

  /** After a START that leaves its row, and for as long as the row lives and is
      not opened again: the trail is the '*'-join of what the START was dialed
      with, if anything, and every later input of the session that is not blank,
      whatever legs of other sessions come between. */
  lemma TrailSinceStart(op: OpId, rows: map<Key, Row>, start: Leg, legs: seq<Leg>)
    requires start.reading.Opens? || (start.reading.OpensOrTypes? && KeyOf(op, start) !in rows)
    requires var rows' := Handle(op, rows, start).rows;
             Survives(op, rows', KeyOf(op, start), legs) && NoReopening(op, KeyOf(op, start), legs)
    ensures var rows' := RunRows(op, Handle(op, rows, start).rows, legs);
            && KeyOf(op, start) in rows'
            && rows'[KeyOf(op, start)].ussdString
                 == Join(NonEmpty(start.reading.to.remainder) + Kept(InputsFor(op, KeyOf(op, start), legs)))
  {
    TrailCollects(op, Handle(op, rows, start).rows, KeyOf(op, start), legs);
    TrailIsJoin(start.reading.to.remainder, InputsFor(op, KeyOf(op, start), legs));
  }

  /** These legs came in over Airtel, as these requests. */
  predicate AllAirtel(legs: seq<Leg>, wires: seq<Wire>) {
    && |wires| == |legs|
    && forall i :: 0 <= i < |legs| ==> wires[i].Airtel? && legs[i].reading == Read(legs[i].shortcodes.Keys, wires[i])
  }

  lemma AirtelReads(codes: set<string>, w: Wire)
    requires w.Airtel?
    ensures Read(codes, w).Refused? || Read(codes, w).OpensOrTypes?
  {
  }

  function Repeat(e: Event, n: nat): seq<Event> { seq(n, i => e) }

  predicate AirtelWord(life: Option<Life>) {
    life.Some? ==> life.value.events == [Start] + Repeat(Input, |life.value.inputs|)
  }

  /** Every Airtel session, from the insertion of its row to its end, is one
      START followed by INPUTs only. */
  lemma AirtelStartsOnce(op: OpId, key: Key, legs: seq<Leg>, wires: seq<Wire>)
    requires AllAirtel(legs, wires)
    ensures AirtelWord(RunLife(op, map[], key, None, legs))
  {
    AirtelGoesOn(op, map[], key, None, legs, wires);
  }

  lemma {:induction false} AirtelGoesOn(op: OpId, rows: map<Key, Row>, key: Key, life: Option<Life>, legs: seq<Leg>,
      wires: seq<Wire>)
    requires AllAirtel(legs, wires) && Agrees(rows, key, life) && AirtelWord(life)
    ensures AirtelWord(RunLife(op, rows, key, life, legs))
    decreases |legs|
  {
    if legs != [] {
      AirtelReads(legs[0].shortcodes.Keys, wires[0]);
      StepAgrees(op, rows, key, life, legs[0]);
      AirtelStep(op, rows, key, life, legs[0]);
      assert forall i :: 0 <= i < |legs[1..]| ==> legs[1..][i] == legs[i + 1] && wires[1..][i] == wires[i + 1];
      AirtelGoesOn(op, Handle(op, rows, legs[0]).rows, key, LifeStep(op, rows, key, life, legs[0]), legs[1..],
          wires[1..]);
    }
  }

  lemma AirtelStep(op: OpId, rows: map<Key, Row>, key: Key, life: Option<Life>, leg: Leg)
    requires (leg.reading.Refused? || leg.reading.OpensOrTypes?) && Agrees(rows, key, life) && AirtelWord(life)
    ensures AirtelWord(LifeStep(op, rows, key, life, leg))
  {
    assert [Start] + Repeat(Input, 0) == [Start];
    if life.Some? {
      var n := |life.value.inputs|;
      assert [Start] + Repeat(Input, n) + [Input] == [Start] + Repeat(Input, n + 1);
    }
  }

  predicate IdleLong(life: Option<Life>, now: int) { life.Some? && now - life.value.lastLeg >= 55_000_000 }

  /** A Vodacom release (type 3) is taken for the network's own cut-off exactly
      when at least 55 seconds have passed since the last leg that touched the
      row, after any run of legs. */
  lemma ReleaseIsCutOffExactly(op: OpId, legs: seq<Leg>, w: Wire, leg: Leg)
    requires w.Vodacom? && w.kind == "3" && w.msisdn != "" && w.session != ""
        && leg.reading == Read(leg.shortcodes.Keys, w)
    ensures Handle(op, RunRows(op, map[], legs), leg).request.Some?
    ensures Handle(op, RunRows(op, map[], legs), leg).request.value.event
         == if IdleLong(RunLife(op, map[], (w.session, op), None, legs), leg.now) then ProviderTerminated
             else UserCancelled
  {
    RowIsItsHistory(op, (w.session, op), legs);
    ReleaseReading(leg.shortcodes.Keys, w);
  }

  lemma ReleaseReading(codes: set<string>, w: Wire)
    requires w.Vodacom? && w.kind == "3" && w.msisdn != "" && w.session != ""
    ensures Read(codes, w).Informs? && Read(codes, w).event == UserCancelled && Read(codes, w).relabels
    ensures Read(codes, w).session == w.session
  {
  }

  /** The handler a session's row leads to. */
  function Reachable(rows: map<Key, Row>, key: Key, shortcodes: Shortcodes): Option<string> {
    if key in rows && rows[key].serviceCode != "" && Active(shortcodes, rows[key].serviceCode)
    then Some(rows[key].serviceCode) else None
  }

  /** A terminal leg tells a handler exactly when the row is there and its code
      is registered and active, and it tells the handler of that code. */
  lemma TerminalTellsExactly(op: OpId, rows: map<Key, Row>, leg: Leg)
    requires Handle(op, rows, leg).outcome.Terminated?
    ensures Handle(op, rows, leg).outcome.notified == Reachable(rows, KeyOf(op, leg), leg.shortcodes)
    ensures KeyOf(op, leg) !in Handle(op, rows, leg).rows
  {
    LegEffect(op, rows, leg);
  }
}
