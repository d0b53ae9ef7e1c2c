/**
 The four networks' legs, field by field: what every leg that can come over the
 wire asks for and does to the rows, with each network's own codes spelt out.
 `Handle` is what the pipeline is proved to do (Legs.HandleUssd).
 */
module WireLegs {
  import opened Options
  import opened Text
  import opened Dialing
  import opened Routing
  import opened SessionCache
  import opened Adapters
  import opened Legs

  /** One leg, parsed over these rows. */
  function Arrive(codes: set<string>, rows: map<Key, Row>, op: OpId, w: Wire, now: int): Parsed {
    ApplyReading(rows, op, Read(codes, w), now)
  }

  ghost predicate OthersStay(rows: map<Key, Row>, rows': map<Key, Row>, key: Key) {
    forall k :: k != key ==> (k in rows' <==> k in rows) && (k in rows ==> rows'[k] == rows[k])
  }

  /** A START under this code and trail: a new row holds what the leg brought; a
      live one keeps code, id and subscriber. */
  ghost predicate Starts(rows: map<Key, Row>, key: Key, msisdn: string, code: string, trail: string, now: int,
      p: Parsed) {
    && p.request.Some? && p.request.value.event == Start && p.request.value.session == key.0
    && p.request.value.msisdn == msisdn && p.request.value.serviceCode == code && p.request.value.ussdString == trail
    && key in p.rows && OthersStay(rows, p.rows, key)
    && p.rows[key].ussdString == trail && p.rows[key].lastSeen == now
    && (if key in rows
        then p.rows[key].serviceCode == rows[key].serviceCode && p.rows[key].msisdn == rows[key].msisdn
             && p.rows[key].shortcodeId == rows[key].shortcodeId
        else p.rows[key].serviceCode == code && p.rows[key].msisdn == msisdn && p.rows[key].shortcodeId == None)
  }

  /** An INPUT on a live row: the row's trail grows, its clock moves, nothing
      else does, and the request carries the grown trail. */
  predicate Extends(rows: map<Key, Row>, key: Key, msisdn: string, code: string, input: string, now: int, p: Parsed) {
    && key in rows && p.request.Some? && p.request.value.event == Input && p.request.value.session == key.0
    && p.request.value.msisdn == msisdn && p.request.value.serviceCode == code
    && p.request.value.ussdString == Accumulate(rows[key].ussdString, input)
    && p.rows == rows[key := Row(rows[key].serviceCode, rows[key].shortcodeId, rows[key].msisdn,
                                 Accumulate(rows[key].ussdString, input), now)]
  }

  /** An INPUT that lost its row: the request is all there is. */
  predicate Lost(rows: map<Key, Row>, key: Key, msisdn: string, code: string, trail: string, p: Parsed) {
    && key !in rows && p.rows == rows && p.request.Some? && p.request.value.event == Input
    && p.request.value.session == key.0 && p.request.value.msisdn == msisdn
    && p.request.value.serviceCode == code && p.request.value.ussdString == trail
  }

  /** A leg that only tells: the rows stay, the request names the row's code. */
  predicate Tells(rows: map<Key, Row>, key: Key, msisdn: string, event: Event, p: Parsed) {
    && p.rows == rows && p.request.Some? && p.request.value.event == event && p.request.value.session == key.0
    && p.request.value.msisdn == msisdn
    && p.request.value.serviceCode == if key in rows then rows[key].serviceCode else ""
  }

  predicate RefusedLeg(rows: map<Key, Row>, p: Parsed) { p.request.None? && p.rows == rows }

  /** Where a normalised dial goes: the code found, with what was dialed behind it. */
  function CodeFor(codes: set<string>, dial: string, fallback: string): string {
    match Lookup(codes, dial) case None => fallback case Some(m) => m.code
  }

  function TrailFor(codes: set<string>, dial: string): string {
    match Lookup(codes, dial) case None => "" case Some(m) => m.remainder
  }

  // ---- subscriber numbers and path segments ----------------------------------------------

  /** Leading plus signs and the space around go. */
  lemma NumberIsClean(pluses: string, lead: string, m: string, trail: string)
    requires (forall c :: c in pluses ==> c == '+') && Blank(lead) && Blank(trail)
    requires m != "" && m[0] != '+' && !IsSpace(m[0]) && !IsSpace(m[|m| - 1])
    ensures NormaliseMsisdn(pluses + (lead + (m + trail))) == m
  {
    var rest := lead + (m + trail);
    assert rest[0] == if lead == "" then m[0] else lead[0];
    assert IsSpace(rest[0]) || rest[0] == m[0];
    PlusIsNoSpace();
    assert forall i :: 0 <= i < |pluses| ==> pluses[i] in pluses;
    DropLeftIs(pluses, rest, IsPlus);
    StripIs(lead, m, trail);
  }

  lemma PlusIsNoSpace()
    ensures !IsSpace('+')
  {
  }

  lemma SlugIs(path: string, default: string)
    ensures PartnerSlug(path, default) == if Strip(path) == "" then default else Lower(Strip(path))
  {
  }

  // ---- Vodacom: types 1, 2, 3, 4 and 10 ---------------------------------------------------

  lemma VodacomStarts(codes: set<string>, rows: map<Key, Row>, op: OpId, w: Wire, now: int)
    requires w.Vodacom? && w.msisdn != "" && w.session != "" && w.kind == "1"
    ensures var dial := NormaliseDialed(w.msg);
            Starts(rows, (w.session, op), NormaliseMsisdn(w.msisdn), CodeFor(codes, dial, dial), TrailFor(codes, dial),
                   now, Arrive(codes, rows, op, w, now))
  {
  }

  lemma VodacomGoesOn(codes: set<string>, rows: map<Key, Row>, op: OpId, w: Wire, now: int)
    requires w.Vodacom? && w.msisdn != "" && w.session != "" && w.kind == "2"
    ensures var p, key := Arrive(codes, rows, op, w, now), (w.session, op);
            if key in rows then Extends(rows, key, NormaliseMsisdn(w.msisdn), rows[key].serviceCode, w.msg, now, p)
            else Lost(rows, key, NormaliseMsisdn(w.msisdn), "", Strip(w.msg), p)
  {
  }

  lemma VodacomEnds(codes: set<string>, rows: map<Key, Row>, op: OpId, w: Wire, now: int)
    requires w.Vodacom? && w.msisdn != "" && w.session != "" && (w.kind == "3" || w.kind == "4" || w.kind == "10")
    ensures var key := (w.session, op);
            var idle := key in rows && now - rows[key].lastSeen >= 55_000_000;
            Tells(rows, key, NormaliseMsisdn(w.msisdn),
                  if w.kind == "3" && !idle then UserCancelled else ProviderTerminated,
                  Arrive(codes, rows, op, w, now))
  {
  }

  lemma VodacomRefuses(codes: set<string>, rows: map<Key, Row>, op: OpId, w: Wire, now: int)
    requires w.Vodacom?
    requires w.msisdn == "" || w.session == ""
          || (w.kind != "1" && w.kind != "2" && w.kind != "3" && w.kind != "4" && w.kind != "10")
    ensures RefusedLeg(rows, Arrive(codes, rows, op, w, now))
  {
  }

  // ---- Halotel: request types 100 to 104 --------------------------------------------------

  lemma HalotelStarts(codes: set<string>, rows: map<Key, Row>, op: OpId, w: Wire, now: int)
    requires w.Halotel? && w.session != "" && w.kind == "100"
    ensures var dial := NormaliseDialed(w.msg);
            Starts(rows, (w.session, op), w.msisdn, CodeFor(codes, dial, dial), TrailFor(codes, dial), now,
                   Arrive(codes, rows, op, w, now))
  {
  }

  /** The number Halotel leaves out is the row's. */
  function Subscriber(rows: map<Key, Row>, key: Key, msisdn: string): string {
    if msisdn == "" && key in rows then rows[key].msisdn else msisdn
  }

  lemma HalotelGoesOn(codes: set<string>, rows: map<Key, Row>, op: OpId, w: Wire, now: int)
    requires w.Halotel? && w.session != "" && w.kind == "101"
    ensures var p, key := Arrive(codes, rows, op, w, now), (w.session, op);
            if key in rows then
              Extends(rows, key, Subscriber(rows, key, w.msisdn), rows[key].serviceCode, w.msg, now, p)
            else Lost(rows, key, w.msisdn, "", Strip(w.msg), p)
  {
  }

  lemma HalotelTells(codes: set<string>, rows: map<Key, Row>, op: OpId, w: Wire, now: int)
    requires w.Halotel? && w.session != "" && (w.kind == "102" || w.kind == "103" || w.kind == "104")
    ensures var key := (w.session, op);
            Tells(rows, key, Subscriber(rows, key, w.msisdn),
                  if w.kind == "102" then UserCancelled
                  else if w.kind == "103" then DeliveryAck
                  else ProviderTerminated,
                  Arrive(codes, rows, op, w, now))
  {
  }

  lemma HalotelRefuses(codes: set<string>, rows: map<Key, Row>, op: OpId, w: Wire, now: int)
    requires w.Halotel?
    requires w.session == "" || (w.kind != "100" && w.kind != "101" && w.kind != "102" && w.kind != "103"
                                 && w.kind != "104")
    ensures RefusedLeg(rows, Arrive(codes, rows, op, w, now))
  {
  }

  // ---- Tigo: a new-request flag, in two schemes -------------------------------------------

  predicate SaysNew(flag: string) {
    Strip(flag) == "1" || Strip(flag) == "true" || Strip(flag) == "yes" || Strip(flag) == "y"
  }

  /** A first leg is routed by SHORT_CODE, or else by Ussd_string, or else by the path. */
  lemma TigoStarts(codes: set<string>, rows: map<Key, Row>, op: OpId, w: Wire, now: int)
    requires w.Tigo? && w.msisdn != "" && w.session != "" && SaysNew(w.newRequest)
    ensures var dial := NormaliseDialed(if Strip(w.shortCode) != "" then Strip(w.shortCode) else Strip(w.ussd));
            Starts(rows, (w.session, op), NormaliseMsisdn(w.msisdn),
                   CodeFor(codes, dial, PartnerSlug(w.path, "tigo")), TrailFor(codes, dial), now,
                   Arrive(codes, rows, op, w, now))
  {
  }

  /** Any other leg adds its input, or else its Ussd_string. */
  lemma TigoGoesOn(codes: set<string>, rows: map<Key, Row>, op: OpId, w: Wire, now: int)
    requires w.Tigo? && w.msisdn != "" && w.session != "" && !SaysNew(w.newRequest)
    ensures var p, key := Arrive(codes, rows, op, w, now), (w.session, op);
            var slug, input := PartnerSlug(w.path, "tigo"), Strip(if w.input != "" then w.input else w.ussd);
            if key in rows then
              Extends(rows, key, NormaliseMsisdn(w.msisdn),
                      if rows[key].serviceCode == "" then slug else rows[key].serviceCode, input, now, p)
            else Lost(rows, key, NormaliseMsisdn(w.msisdn), slug, input, p)
  {
  }

  // ---- Airtel: no flag at all -----------------------------------------------------------------

  /** The first leg of a session is the one that finds no row. */
  lemma AirtelByItsRow(codes: set<string>, rows: map<Key, Row>, op: OpId, w: Wire, now: int)
    requires w.Airtel? && w.msisdn != "" && w.session != ""
    ensures var p, key := Arrive(codes, rows, op, w, now), (w.session, op);
            var slug, dial := PartnerSlug(w.path, "airtel"), NormaliseDialed(Strip(w.input));
            if key !in rows then
              Starts(rows, key, NormaliseMsisdn(w.msisdn), CodeFor(codes, dial, slug), TrailFor(codes, dial), now, p)
            else
              Extends(rows, key, NormaliseMsisdn(w.msisdn),
                      if rows[key].serviceCode == "" then slug else rows[key].serviceCode, Strip(w.input), now, p)
  {
  }

  lemma MissingFieldsAreRefused(codes: set<string>, rows: map<Key, Row>, op: OpId, w: Wire, now: int)
    requires (w.Airtel? || w.Tigo?) && (w.msisdn == "" || w.session == "")
    ensures RefusedLeg(rows, Arrive(codes, rows, op, w, now))
  {
  }

  // ---- and on through the pipeline --------------------------------------------------------------

  function OneLeg(shortcodes: Shortcodes, rows: map<Key, Row>, op: OpId, w: Wire, now: int, reply: Reply): Handled {
    Handle(op, rows, Leg(Read(shortcodes.Keys, w), shortcodes, now, reply))
  }

  /** What every leg comes to: a START or INPUT for an active code is forwarded
      with its trail, and its row stays unless the handler ended the session or
      failed; for any other code the subscriber is turned away and the row goes;
      a receipt changes nothing; an end deletes the row. */
  lemma LegComesTo(shortcodes: Shortcodes, rows: map<Key, Row>, op: OpId, w: Wire, now: int, reply: Reply)
    ensures var p, h := Arrive(shortcodes.Keys, rows, op, w, now), OneLeg(shortcodes, rows, op, w, now, reply);
            match p.request
            case None => h.outcome == Rejected && h.rows == rows
            case Some(r) =>
              var key := (r.session, op);
              match r.event
              case DeliveryAck => h.outcome == Acked && h.rows == rows
              case UserCancelled => h.outcome.Terminated? && h.rows == rows - {key}
              case ProviderTerminated => h.outcome.Terminated? && h.rows == rows - {key}
              case _ =>
                if r.serviceCode in shortcodes && shortcodes[r.serviceCode] then
                  h.outcome == Forwarded(r.serviceCode, r.event, r.ussdString, reply == End || reply == Failed)
                  && h.rows == if reply == End || reply == Failed then p.rows - {key} else p.rows
                else h.outcome == Canned && h.rows == p.rows - {key}
  {
    LegEffect(op, rows, Leg(Read(shortcodes.Keys, w), shortcodes, now, reply));
    RequestKeepsSession(rows, op, Read(shortcodes.Keys, w), now);
  }

  /** Dialing a registered code over Vodacom opens the session and reaches its
      handler. */
  lemma DialReachesItsHandler(shortcodes: Shortcodes, rows: map<Key, Row>, op: OpId, w: Wire, now: int)
    requires w.Vodacom? && w.msisdn != "" && w.session != "" && w.kind == "1" && (w.session, op) !in rows
    requires Lookup(shortcodes.Keys, NormaliseDialed(w.msg)).Some?
    requires Active(shortcodes, Lookup(shortcodes.Keys, NormaliseDialed(w.msg)).value.code)
    ensures var h := OneLeg(shortcodes, rows, op, w, now, Con);
            var m := Lookup(shortcodes.Keys, NormaliseDialed(w.msg)).value;
            && h.outcome == Forwarded(m.code, Start, m.remainder, false)
            && (w.session, op) in h.rows && h.rows[(w.session, op)].serviceCode == m.code
  {
    VodacomStarts(shortcodes.Keys, rows, op, w, now);
    LegComesTo(shortcodes, rows, op, w, now, Con);
  }
}
