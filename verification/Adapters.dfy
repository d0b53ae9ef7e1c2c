/**
 The four network adapters: each turns a leg, as the network sends it, into a
 unified request, reading and refreshing the session row on the way.

 A leg is first read (`ReadAirtel` and so on: everything that depends on the
 wire alone) and then applied to the rows (`ApplyReading`).  The methods do both
 in one pass, as the adapters do.
 */
module Adapters {
  import opened Options
  import opened Text
  import opened Dialing
  import opened Routing
  import opened SessionCache

  datatype Event = Start | Input | UserCancelled | ProviderTerminated | DeliveryAck

  /** Events that neither open a session nor add to it. */
  type SilentEvent = e: Event | e != Start && e != Input witness DeliveryAck

  predicate Terminal(e: Event) { e == UserCancelled || e == ProviderTerminated }

  datatype Wire =
    | Airtel(msisdn: string, session: string, input: string, path: string)
    | Vodacom(msisdn: string, session: string, kind: string, msg: string)
    | Tigo(msisdn: string, session: string, newRequest: string, shortCode: string, ussd: string, input: string,
        path: string)
    | Halotel(msisdn: string, session: string, kind: string, msg: string)

  datatype UnifiedRequest = UnifiedRequest(msisdn: string, session: string, serviceCode: string, ussdString: string,
                                           event: Event, shortcodeId: Option<int>, dialed: string)

  /** A leg, read. */
  datatype Reading =
    | Refused                                                                     // HTTP 400
    | Opens(msisdn: string, session: string, to: PrefixMatch, dialed: string)
    | OpensOrTypes(msisdn: string, session: string, to: PrefixMatch, dialed: string, input: string, path: string)
    | Types(msisdn: string, session: string, input: string, path: string, lostTrail: string, dialed: string,
        recovers: bool)
    | Informs(event: SilentEvent, msisdn: string, session: string, lostTrail: string, relabels: bool, recovers: bool)

  datatype Parsed = Parsed(rows: map<Key, Row>, request: Option<UnifiedRequest>)

  predicate IsPlus(c: char) { c == '+' }

  function NormaliseMsisdn(raw: string): string { Strip(DropLeft(raw, IsPlus)) }

  function Or(a: string, b: string): string { if a == "" then b else a }

  function PartnerSlug(path: string, default: string): string { Or(Lower(Strip(path)), default) }

  /** Where a dialed code goes: the longest registered prefix, with what was
      dialed behind it, or the fallback. */
  function Route(codes: set<string>, dial: string, fallback: string): PrefixMatch {
    Lookup(codes, dial).GetOr(PrefixMatch(fallback, ""))
  }

  // ---- a reading applied to the rows ---------------------------------------------------------

  const CUTOFF_SECS := 55

  /** A release on a session idle this long is the network's own cut-off. */
  predicate CutOff(row: Row, now: int) { now - row.lastSeen >= CUTOFF_SECS * SECOND }

  function Open(rows: map<Key, Row>, key: Key, msisdn: string, to: PrefixMatch, dialed: string, now: int): Parsed {
    Parsed(Upserted(rows, key, Row(to.code, None, msisdn, to.remainder, now)),
           Some(UnifiedRequest(msisdn, key.0, to.code, to.remainder, Start, None, dialed)))
  }

  /** The row of a live session after one more input. */
  function Extended(row: Row, input: string, now: int): Row {
    row.(ussdString := Accumulate(row.ussdString, input), lastSeen := now)
  }

  /** An input on a live session: it goes where the row says, or where it came
      in when the row was cached without a code. */
  function Extend(rows: map<Key, Row>, key: Key, msisdn: string, input: string, path: string, dialed: string,
                  recovers: bool, now: int): Parsed
    requires key in rows
  {
    var prior := rows[key];
    var row := Extended(prior, input, now);
    Parsed(rows[key := row],
           Some(UnifiedRequest(if recovers then Or(msisdn, prior.msisdn) else msisdn,
                               key.0, Or(prior.serviceCode, path),
                               row.ussdString, Input, if recovers then prior.shortcodeId else None, dialed)))
  }

  function Inform(rows: map<Key, Row>, key: Key, event: Event, msisdn: string, relabels: bool, recovers: bool,
      now: int): UnifiedRequest
    requires key in rows
  {
    var prior := rows[key];
    UnifiedRequest(if recovers then Or(msisdn, prior.msisdn) else msisdn, key.0, prior.serviceCode, prior.ussdString,
                   if relabels && event == UserCancelled && CutOff(prior, now) then ProviderTerminated else event,
                   prior.shortcodeId, "")
  }

  function ApplyReading(rows: map<Key, Row>, op: OpId, r: Reading, now: int): Parsed {
    match r
    case Refused => Parsed(rows, None)
    case Opens(msisdn, session, to, dialed) => Open(rows, (session, op), msisdn, to, dialed, now)
    case OpensOrTypes(msisdn, session, to, dialed, input, path) =>
      if (session, op) !in rows then Open(rows, (session, op), msisdn, to, dialed, now)
      else Extend(rows, (session, op), msisdn, input, path, "", false, now)
    case Types(msisdn, session, input, path, lostTrail, dialed, recovers) =>
      if (session, op) !in rows
          then Parsed(rows, Some(UnifiedRequest(msisdn, session, path, lostTrail, Input, None, dialed)))
      else Extend(rows, (session, op), msisdn, input, path, dialed, recovers, now)
    case Informs(event, msisdn, session, lostTrail, relabels, recovers) =>
      if (session, op) !in rows then Parsed(rows, Some(UnifiedRequest(msisdn, session, "", lostTrail, event, None, "")))
      else Parsed(rows, Some(Inform(rows, (session, op), event, msisdn, relabels, recovers, now)))
  }

  // ---- Airtel -----------------------------------------------------------------------------

  /** A session that is not in the table starts; one that is goes on. */
  function ReadAirtel(codes: set<string>, w: Wire): Reading
    requires w.Airtel?
  {
    if w.msisdn == "" || w.session == "" then Refused
    else
      var input, slug := Strip(w.input), PartnerSlug(w.path, "airtel");
      var dialed := NormaliseDialed(input);
      OpensOrTypes(NormaliseMsisdn(w.msisdn), w.session, Route(codes, dialed, slug), dialed, input, slug)
  }

  method AirtelParse(db: SessionTable, codes: set<string>, op: OpId, w: Wire, now: int)
      returns (ur: Option<UnifiedRequest>)
    requires w.Airtel?
    modifies db`rows
    ensures Parsed(db.rows, ur) == ApplyReading(old(db.rows), op, ReadAirtel(codes, w), now)
  {
    var input := Strip(w.input);
    if w.msisdn == "" { return None; }
    if w.session == "" { return None; }
    var msisdn := NormaliseMsisdn(w.msisdn);
    var slug := PartnerSlug(w.path, "airtel");
    var key := (w.session, op);
    var prior := db.GetActiveSession(key);
    var event, ussdString, dialed := Input, "", "";
    if prior.None? {
      event := Start;
      dialed := NormaliseDialed(input);
      var prefix := LookupShortcodeByDialPrefix(codes, dialed);
      if prefix.Some? {
        slug := prefix.value.code;
        ussdString := prefix.value.remainder;
      }
      db.UpsertActiveSession(key, Row(slug, None, msisdn, ussdString, now));
    } else {
      ussdString := Accumulate(prior.value.ussdString, input);
      db.UpsertActiveSession(key, Row(Or(prior.value.serviceCode, slug), prior.value.shortcodeId,
                                      Or(msisdn, prior.value.msisdn), ussdString, now));
      slug := Or(prior.value.serviceCode, slug);
    }
    ur := Some(UnifiedRequest(msisdn, w.session, slug, ussdString, event, None, dialed));
  }

  // ---- Vodacom ------------------------------------------------------------------------------

  function TruRouteEvent(kind: string): Option<Event> {
    if kind == "1" then Some(Start)
    else if kind == "2" then Some(Input)
    else if kind == "3" then Some(UserCancelled)
    else if kind == "4" || kind == "10" then Some(ProviderTerminated)
    else None
  }

  function ReadVodacom(codes: set<string>, w: Wire): Reading
    requires w.Vodacom?
  {
    var event := TruRouteEvent(w.kind);
    if w.msisdn == "" || w.session == "" || w.kind == "" || event.None? then Refused
    else if event.value == Start then
      var dialed := NormaliseDialed(w.msg);
      Opens(NormaliseMsisdn(w.msisdn), w.session, Route(codes, dialed, dialed), "")
    else if event.value == Input then Types(NormaliseMsisdn(w.msisdn), w.session, w.msg, "", Strip(w.msg), "", false)
    else Informs(event.value, NormaliseMsisdn(w.msisdn), w.session, w.msg, true, false)
  }

  method VodacomParse(db: SessionTable, codes: set<string>, op: OpId, w: Wire, now: int)
      returns (ur: Option<UnifiedRequest>)
    requires w.Vodacom?
    modifies db`rows
    ensures Parsed(db.rows, ur) == ApplyReading(old(db.rows), op, ReadVodacom(codes, w), now)
  {
    if w.msisdn == "" || w.session == "" || w.kind == "" { return None; }
    var known := TruRouteEvent(w.kind);
    if known.None? { return None; }
    var event := known.value;
    var msisdn := NormaliseMsisdn(w.msisdn);
    var key := (w.session, op);
    var serviceCode, ussdString, shortcodeId := "", "", None;
    if event == Start {
      serviceCode := NormaliseDialed(w.msg);
      var prefix := LookupShortcodeByDialPrefix(codes, serviceCode);
      if prefix.Some? {
        serviceCode := prefix.value.code;
        ussdString := prefix.value.remainder;
      }
      db.UpsertActiveSession(key, Row(serviceCode, None, msisdn, ussdString, now));
    } else if event == Input {
      var prior := db.GetActiveSession(key);
      if prior.None? {
        ussdString := Strip(w.msg);
      } else {
        serviceCode := prior.value.serviceCode;
        ussdString := Accumulate(prior.value.ussdString, w.msg);
        db.UpsertActiveSession(key,
            Row(serviceCode, prior.value.shortcodeId, Or(msisdn, prior.value.msisdn), ussdString, now));
      }
    } else {
      var prior := db.GetActiveSession(key);
      if event == UserCancelled && prior.Some? && now - prior.value.lastSeen >= CUTOFF_SECS * SECOND {
        event := ProviderTerminated;
      }
      serviceCode := if prior.Some? then prior.value.serviceCode else "";
      ussdString := if prior.Some? then prior.value.ussdString else w.msg;
      shortcodeId := if prior.Some? then prior.value.shortcodeId else None;
    }
    ur := Some(UnifiedRequest(msisdn, w.session, serviceCode, ussdString, event, shortcodeId, ""));
  }

  // ---- Tigo -----------------------------------------------------------------------------------

  predicate IsNewRequest(w: Wire)
    requires w.Tigo?
  {
    var raw := Strip(w.newRequest);
    raw == "1" || raw == "true" || raw == "yes" || raw == "y"
  }

  /** SHORT_CODE when the scheme carries it, else the first leg's Ussd_string. */
  function DialedCode(w: Wire): string
    requires w.Tigo?
  {
    var sc := Strip(w.shortCode);
    if sc != "" then sc else if IsNewRequest(w) then Strip(w.ussd) else ""
  }

  function UserInput(w: Wire): string
    requires w.Tigo?
  {
    if IsNewRequest(w) then "" else Strip(Or(w.input, w.ussd))
  }

  function ReadTigo(codes: set<string>, w: Wire): Reading
    requires w.Tigo?
  {
    if w.msisdn == "" || w.session == "" then Refused
    else
      var slug, dialed := PartnerSlug(w.path, "tigo"), DialedCode(w);
      if IsNewRequest(w) then
        Opens(NormaliseMsisdn(w.msisdn), w.session, Route(codes, NormaliseDialed(dialed), slug), dialed)
      else Types(NormaliseMsisdn(w.msisdn), w.session, UserInput(w), slug, UserInput(w), dialed, false)
  }

  lemma NothingDialedNothingFound(codes: set<string>)
    ensures Lookup(codes, NormaliseDialed("")).None?
  {
    assert Strip("") == "";
    assert Core("") == "";
  }

  method TigoParse(db: SessionTable, codes: set<string>, op: OpId, w: Wire, now: int)
      returns (ur: Option<UnifiedRequest>)
    requires w.Tigo?
    modifies db`rows
    ensures Parsed(db.rows, ur) == ApplyReading(old(db.rows), op, ReadTigo(codes, w), now)
  {
    if w.msisdn == "" { return None; }
    if w.session == "" { return None; }
    var isNew := IsNewRequest(w);
    var msisdn := NormaliseMsisdn(w.msisdn);
    var slug := PartnerSlug(w.path, "tigo");
    var key := (w.session, op);
    var dialed, userIn := DialedCode(w), UserInput(w);
    var ussdString := "";
    if isNew {
      NothingDialedNothingFound(codes);
      if dialed != "" {
        var prefix := LookupShortcodeByDialPrefix(codes, NormaliseDialed(dialed));
        if prefix.Some? {
          slug := prefix.value.code;
          ussdString := prefix.value.remainder;
        }
      }
      db.UpsertActiveSession(key, Row(slug, None, msisdn, ussdString, now));
    } else {
      var prior := db.GetActiveSession(key);
      if prior.None? {
        ussdString := userIn;
      } else {
        ussdString := Accumulate(prior.value.ussdString, userIn);
        db.UpsertActiveSession(key, Row(Or(prior.value.serviceCode, slug), prior.value.shortcodeId,
                                        Or(msisdn, prior.value.msisdn), ussdString, now));
        slug := Or(prior.value.serviceCode, slug);
      }
    }
    ur := Some(UnifiedRequest(msisdn, w.session, slug, ussdString, if isNew then Start else Input, None, dialed));
  }

  // ---- Halotel ----------------------------------------------------------------------------------

  function HalotelEvent(kind: string): Option<Event> {
    if kind == "100" then Some(Start)
    else if kind == "101" then Some(Input)
    else if kind == "102" then Some(UserCancelled)
    else if kind == "103" then Some(DeliveryAck)
    else if kind == "104" then Some(ProviderTerminated)
    else None
  }

  function ReadHalotel(codes: set<string>, w: Wire): Reading
    requires w.Halotel?
  {
    var event := HalotelEvent(w.kind);
    if event.None? || w.session == "" then Refused
    else if event.value == Start then
      var dialed := NormaliseDialed(w.msg);
      Opens(w.msisdn, w.session, Route(codes, dialed, dialed), "")
    else if event.value == Input then Types(w.msisdn, w.session, w.msg, "", Strip(w.msg), "", true)
    else Informs(event.value, w.msisdn, w.session, "", false, true)
  }

  method HalotelParse(db: SessionTable, codes: set<string>, op: OpId, w: Wire, now: int)
      returns (ur: Option<UnifiedRequest>)
    requires w.Halotel?
    modifies db`rows
    ensures Parsed(db.rows, ur) == ApplyReading(old(db.rows), op, ReadHalotel(codes, w), now)
  {
    var known := HalotelEvent(w.kind);
    if known.None? { return None; }
    if w.session == "" { return None; }
    var event, msisdn := known.value, w.msisdn;
    var key := (w.session, op);
    var serviceCode, ussdString, shortcodeId := "", "", None;
    if event == Start {
      serviceCode := NormaliseDialed(w.msg);
      var prefix := LookupShortcodeByDialPrefix(codes, serviceCode);
      if prefix.Some? {
        serviceCode := prefix.value.code;
        ussdString := prefix.value.remainder;
      }
      db.UpsertActiveSession(key, Row(serviceCode, None, msisdn, ussdString, now));
    } else if event == Input {
      var prior := db.GetActiveSession(key);
      if prior.None? {
        ussdString := Strip(w.msg);
      } else {
        serviceCode := prior.value.serviceCode;
        ussdString := Accumulate(prior.value.ussdString, w.msg);
        if msisdn == "" { msisdn := prior.value.msisdn; }
        shortcodeId := prior.value.shortcodeId;
        db.UpsertActiveSession(key, Row(serviceCode, prior.value.shortcodeId, msisdn, ussdString, now));
      }
    } else {
      var prior := db.GetActiveSession(key);
      serviceCode := if prior.Some? then prior.value.serviceCode else "";
      ussdString := if prior.Some? then prior.value.ussdString else "";
      if prior.Some? && msisdn == "" { msisdn := prior.value.msisdn; }
      shortcodeId := if prior.Some? then prior.value.shortcodeId else None;
    }
    ur := Some(UnifiedRequest(msisdn, w.session, serviceCode, ussdString, event, shortcodeId, ""));
  }

  function Read(codes: set<string>, w: Wire): Reading {
    match w
    case Airtel(_, _, _, _) => ReadAirtel(codes, w)
    case Vodacom(_, _, _, _) => ReadVodacom(codes, w)
    case Tigo(_, _, _, _, _, _, _) => ReadTigo(codes, w)
    case Halotel(_, _, _, _) => ReadHalotel(codes, w)
  }

  method Parse(db: SessionTable, codes: set<string>, op: OpId, w: Wire, now: int) returns (ur: Option<UnifiedRequest>)
    modifies db`rows
    ensures Parsed(db.rows, ur) == ApplyReading(old(db.rows), op, Read(codes, w), now)
  {
    match w
    case Airtel(_, _, _, _) => ur := AirtelParse(db, codes, op, w, now);
    case Vodacom(_, _, _, _) => ur := VodacomParse(db, codes, op, w, now);
    case Tigo(_, _, _, _, _, _, _) => ur := TigoParse(db, codes, op, w, now);
    case Halotel(_, _, _, _) => ur := HalotelParse(db, codes, op, w, now);
  }
}
