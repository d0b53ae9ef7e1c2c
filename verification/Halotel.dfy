/**
 The envelope Halotel gets: element texts are escaped, then the serialised text
 goes through four textual rewrites, the last of which turns escaped br tags
 back into markup.  Texts are characters; every pattern is ASCII, so UTF-8
 encoding first makes no difference.
 */
module Halotel {
  import opened Options
  import opened Text

  function EscChar(c: char): (r: string)
    ensures r != ""
  {
    if c == '&' then "&amp;" else if c == '<' then "&lt;" else if c == '>' then "&gt;" else [c]
  }

  /** How the serialiser escapes an element's text. */
  function Esc(s: string): string {
    if s == "" then "" else EscChar(s[0]) + Esc(s[1..])
  }

  function SkipSpace(s: string): (r: string)
    ensures |r| <= |s|
  {
    if s != "" && IsByteSpace(s[0]) then SkipSpace(s[1..]) else s
  }

  predicate IsBr(t: string) { |t| >= 2 && LowerChar(t[0]) == 'b' && LowerChar(t[1]) == 'r' }

  /** Spaces, an optional slash, spaces. */
  function SkipSlash(s: string): (r: string)
    ensures |r| <= |s|
  {
    var u := SkipSpace(s);
    if u != "" && u[0] == '/' then SkipSpace(u[1..]) else u
  }

  /** What follows a br tag at the start of s: lt, spaces, br in any case,
      spaces, an optional slash, spaces, gt. */
  function AfterBr(s: string, lt: string, gt: string): (r: Option<string>)
    requires lt != ""
    ensures r.Some? ==> |r.value| < |s|
  {
    if !(lt <= s) then None
    else
      var t := SkipSpace(s[|lt|..]);
      if !IsBr(t) then None
      else
        var v := SkipSlash(t[2..]);
        if gt <= v then Some(v[|gt|..]) else None
  }

  /** _ESCAPED_BR_RE.sub("<br>", s).  The pattern also ignores case in its
      entities, but escaping writes them in lower case only, and an ampersand of
      the message is itself escaped, so no other spelling ever occurs. */
  function UnescapeBr(s: string): string
    decreases |s|
  {
    if s == "" then ""
    else
      var r := AfterBr(s, "&lt;", "&gt;");
      if r.Some? then "<br>" + UnescapeBr(r.value) else [s[0]] + UnescapeBr(s[1..])
  }

  const NS0 := "ns0:"
  const SOAP := "soap:"
  const XMLNS := "xmlns:"
  const XMLNS_NS0 := XMLNS + "ns0="
  const XMLNS_SOAP := XMLNS + "soap="
  const SOAP_HOST := "\"http://schemas.xmlsoap.org"
  const SOAP_URL := SOAP_HOST + "/soap/envelope/\""
  const SOAP_DECL := "soap:Envelope xmlns:soap="
  const ENVELOPE := "<" + (SOAP_DECL + SOAP_URL) + ">"
  const W3_URL := "\"http://www.w3.org/2001/XMLSchema"
  const XSI := " xmlns:xsi=" + W3_URL + "-instance\""
  const XSD := " xmlns:xsd=" + W3_URL + "\""
  const XSI_XSD := XSI + XSD + ">"
  const FULL_ENVELOPE := "<" + (SOAP_DECL + SOAP_URL) + XSI_XSD

  /** The first two rewrites, meant for the serialiser's own prefixes. */
  function Renamed(s: string): string { Replace(Replace(s, NS0, SOAP), XMLNS_NS0, XMLNS_SOAP) }

  /** The first three: prefixes, then the declarations Halotel insists on. */
  function Declared(s: string): string { Replace(Renamed(s), ENVELOPE, FULL_ENVELOPE) }

  /** All four rewrites. */
  function Rewrite(s: string): string { UnescapeBr(Declared(s)) }

  /** What the message should become: left to right, every br tag reads <br>
      and everything else is escaped as section 2.4 of XML 1.0 wants. */
  function MapMsg(m: string): string
    decreases |m|
  {
    if m == "" then ""
    else
      var r := AfterBr(m, "<", ">");
      if r.Some? then "<br>" + MapMsg(r.value) else EscChar(m[0]) + MapMsg(m[1..])
  }

  // ---- escaping and the tag pattern ------------------------------------------------------

  lemma {:induction false} SkipSpaceEsc(s: string)
    ensures SkipSpace(Esc(s)) == Esc(SkipSpace(s))
  {
    if s != "" && IsByteSpace(s[0]) {
      assert Esc(s)[1..] == Esc(s[1..]);
      SkipSpaceEsc(s[1..]);
    }
  }

  lemma EscDrop(s: string)
    requires s != ""
    ensures Esc(s)[|EscChar(s[0])|..] == Esc(s[1..])
  {
  }

  lemma SkipSlashEsc(s: string)
    ensures SkipSlash(Esc(s)) == Esc(SkipSlash(s))
  {
    SkipSpaceEsc(s);
    var u := SkipSpace(s);
    if u != "" && u[0] == '/' {
      EscDrop(u);
      SkipSpaceEsc(u[1..]);
    }
  }

  lemma LtEsc(m: string)
    ensures "&lt;" <= Esc(m) <==> "<" <= m
    ensures "<" <= m ==> Esc(m)[4..] == Esc(m[1..])
  {
    if "&lt;" <= Esc(m) { assert Esc(m)[0] == '&' && Esc(m)[1] == 'l'; }
    if "<" <= m { assert Esc(m) == "&lt;" + Esc(m[1..]); }
  }

  lemma GtEsc(m: string)
    ensures "&gt;" <= Esc(m) <==> ">" <= m
    ensures ">" <= m ==> Esc(m)[4..] == Esc(m[1..])
  {
    if "&gt;" <= Esc(m) { assert Esc(m)[0] == '&' && Esc(m)[1] == 'g'; }
    if ">" <= m { assert Esc(m) == "&gt;" + Esc(m[1..]); }
  }

  lemma BrEsc(t: string)
    ensures IsBr(Esc(t)) <==> IsBr(t)
    ensures IsBr(t) ==> Esc(t)[2..] == Esc(t[2..])
  {
    if |t| >= 2 {
      assert t[1..][1..] == t[2..];
      assert Esc(t) == EscChar(t[0]) + (EscChar(t[1]) + Esc(t[2..]));
    } else if |t| == 1 {
      assert t[1..] == "";
    }
  }

  /** A tag in the message is exactly an escaped tag in the escaped message. */
  lemma AfterBrEsc(m: string)
    ensures AfterBr(Esc(m), "&lt;", "&gt;")
         == if AfterBr(m, "<", ">").Some? then Some(Esc(AfterBr(m, "<", ">").value)) else None
  {
    LtEsc(m);
    if "<" <= m {
      SkipSpaceEsc(m[1..]);
      var t := SkipSpace(m[1..]);
      BrEsc(t);
      if IsBr(t) {
        SkipSlashEsc(t[2..]);
        GtEsc(SkipSlash(t[2..]));
      }
    }
  }

  /** Where no tag starts, a character passes unchanged. */
  lemma CharPasses(s: string)
    requires s != "" && AfterBr(s, "&lt;", "&gt;").None?
    ensures UnescapeBr(s) == [s[0]] + UnescapeBr(s[1..])
  {
  }

  lemma NoAmpNoTag(s: string)
    requires s != "" && s[0] != '&'
    ensures AfterBr(s, "&lt;", "&gt;").None?
  {
    assert "&lt;"[0] == '&';
  }

  lemma Refold(a: string, b: string)
    requires a != ""
    ensures [a[0]] + (a[1..] + b) == a + b
  {
  }

  lemma {:induction false} NoAmpKept(a: string, b: string)
    requires '&' !in a
    ensures UnescapeBr(a + b) == a + UnescapeBr(b)
  {
    if a == "" {
      assert a + b == b && a + UnescapeBr(b) == UnescapeBr(b);
    } else {
      NoAmpNoTag(a + b);
      CharPasses(a + b);
      assert (a + b)[0] == a[0] && (a + b)[1..] == a[1..] + b;
      NoAmpKept(a[1..], b);
      Refold(a, UnescapeBr(b));
    }
  }

  /** When no tag starts here, a character's escape passes unchanged. */
  lemma EscapePasses(e: string, rest: string)
    requires e != "" && '&' !in e[1..] && AfterBr(e + rest, "&lt;", "&gt;").None?
    ensures UnescapeBr(e + rest) == e + UnescapeBr(rest)
  {
    CharPasses(e + rest);
    assert (e + rest)[0] == e[0] && (e + rest)[1..] == e[1..] + rest;
    NoAmpKept(e[1..], rest);
    Refold(e, UnescapeBr(rest));
  }

  lemma EscCharHasOneAmp(c: char)
    ensures '&' !in EscChar(c)[1..]
  {
  }

  /** Unescaping the escaped br tags is the left-to-right map. */
  lemma {:induction false} UnescapeIsMap(m: string)
    ensures UnescapeBr(Esc(m)) == MapMsg(m)
    decreases |m|
  {
    if m != "" {
      AfterBrEsc(m);
      var r := AfterBr(m, "<", ">");
      if r.Some? {
        UnescapeIsMap(r.value);
        TagPasses(Esc(m));
      } else {
        EscCharHasOneAmp(m[0]);
        EscapePasses(EscChar(m[0]), Esc(m[1..]));
        UnescapeIsMap(m[1..]);
      }
    }
  }

  // ---- textual replacement ---------------------------------------------------------------

  lemma {:induction false} RunKept(s: string, pat: string, rep: string, n: nat)
    requires pat != "" && n <= |s| && forall i :: 0 <= i < n ==> s[i] != pat[0]
    ensures Replace(s, pat, rep) == s[..n] + Replace(s[n..], pat, rep)
  {
    if n > 0 {
      assert s[0] != pat[0];
      RunKept(s[1..], pat, rep, n - 1);
      assert s[1..][n - 1..] == s[n..] && s[..n] == [s[0]] + s[1..][..n - 1];
    } else {
      assert s[0..] == s;
    }
  }

  predicate Safe(s: string) { '&' !in s && '<' !in s && '>' !in s }

  lemma {:induction false} PrefixEsc(pat: string, m: string)
    requires Safe(pat)
    ensures pat <= Esc(m) <==> pat <= m
    ensures pat <= m ==> Esc(m)[|pat|..] == Esc(m[|pat|..])
  {
    if pat != "" && m != "" && pat[0] == m[0] {
      PrefixEsc(pat[1..], m[1..]);
      assert Esc(m)[1..] == Esc(m[1..]);
      assert pat == [pat[0]] + pat[1..] && m == [m[0]] + m[1..] && Esc(m) == [m[0]] + Esc(m[1..]);
    }
  }

  lemma EscCons(c: char, s: string)
    ensures Esc([c] + s) == EscChar(c) + Esc(s)
  {
    assert ([c] + s)[1..] == s;
  }

  lemma {:induction false} EscAppend(a: string, b: string)
    requires Safe(a)
    ensures Esc(a + b) == a + Esc(b)
  {
    if a == "" {
      assert a + b == b && a + Esc(b) == Esc(b);
    } else {
      EscAppend(a[1..], b);
      EscCons(a[0], a[1..] + b);
      Refold(a, b);
      Refold(a, Esc(b));
    }
  }

  /** Replacing commutes with escaping when the pattern cannot start inside an
      escape. */
  lemma {:induction false} ReplaceEsc(m: string, pat: string, rep: string)
    requires pat != "" && Safe(pat) && Safe(rep) && pat[0] !in "ampltg;"
    ensures Replace(Esc(m), pat, rep) == Esc(Replace(m, pat, rep))
    decreases |m|
  {
    if m != "" {
      PrefixEsc(pat, m);
      if pat <= m {
        ReplaceEsc(m[|pat|..], pat, rep);
        EscAppend(rep, Replace(m[|pat|..], pat, rep));
      } else {
        ReplaceEsc(m[1..], pat, rep);
        EscDrop(m);
        EscCharKept(m, pat, rep);
        assert Replace(m, pat, rep) == [m[0]] + Replace(m[1..], pat, rep);
      }
    }
  }

  lemma EscCharKept(m: string, pat: string, rep: string)
    requires m != "" && pat != "" && Safe(pat) && pat[0] !in "ampltg;" && !(pat <= m)
    ensures Replace(Esc(m), pat, rep) == EscChar(m[0]) + Replace(Esc(m[1..]), pat, rep)
  {
    PrefixEsc(pat, m);
    EscDrop(m);
    if Safe([m[0]]) {
      assert EscChar(m[0]) == [m[0]];
    } else {
      RunKept(Esc(m), pat, rep, |EscChar(m[0])|);
      assert Esc(m)[..|EscChar(m[0])|] == EscChar(m[0]);
    }
  }

  lemma {:induction false} NoMarkupInEsc(m: string)
    ensures '<' !in Esc(m) && '>' !in Esc(m)
  {
    if m != "" { NoMarkupInEsc(m[1..]); }
  }

  lemma ReplaceEscTwice(t: string, p: string, r: string, q: string, u: string)
    requires p != "" && Safe(p) && Safe(r) && p[0] !in "ampltg;"
    requires q != "" && Safe(q) && Safe(u) && q[0] !in "ampltg;"
    ensures Replace(Replace(Esc(t), p, r), q, u) == Esc(Replace(Replace(t, p, r), q, u))
  {
    ReplaceEsc(t, p, r);
    ReplaceEsc(Replace(t, p, r), q, u);
  }

  lemma RenamedEsc(t: string)
    ensures Renamed(Esc(t)) == Esc(Renamed(t))
  {
    assert NS0[0] == 'n' && XMLNS_NS0[0] == 'x';
    ReplaceEscTwice(t, NS0, SOAP, XMLNS_NS0, XMLNS_SOAP);
  }

  lemma NoEnvelopeInEsc(t: string)
    ensures Replace(Esc(t), ENVELOPE, FULL_ENVELOPE) == Esc(t)
  {
    NoMarkupInEsc(t);
    assert ENVELOPE[0] == '<';
    MissingKept(Esc(t), ENVELOPE, FULL_ENVELOPE, '<');
  }

  /** The four rewrites of an element's escaped text. */
  lemma RewrittenText(t: string)
    ensures Rewrite(Esc(t)) == MapMsg(Renamed(t))
  {
    RenamedEsc(t);
    NoEnvelopeInEsc(Renamed(t));
    UnescapeIsMap(Renamed(t));
  }

  // ---- when the message comes out as intended -----------------------------------------------

  function Os(s: string): nat { multiset(s)['o'] }

  lemma OsSplit(s: string, n: nat)
    requires n <= |s|
    ensures Os(s) == Os(s[..n]) + Os(s[n..])
  {
    assert s == s[..n] + s[n..];
  }

  /** Each replacement adds one letter o. */
  lemma {:induction false} ReplaceAddsOs(s: string, pat: string, rep: string)
    requires pat != "" && Os(rep) == Os(pat) + 1
    ensures Os(Replace(s, pat, rep)) >= Os(s)
    ensures Contains(s, pat) ==> Os(Replace(s, pat, rep)) > Os(s)
    decreases |s|
  {
    if s == "" {
    } else if pat <= s {
      OsSplit(s, |pat|);
      assert s[..|pat|] == pat;
      ReplaceAddsOs(s[|pat|..], pat, rep);
    } else {
      OsSplit(s, 1);
      ReplaceAddsOs(s[1..], pat, rep);
      assert s[..1] == [s[0]];
    }
  }

  lemma {:induction false} SkipSpaceOs(s: string)
    ensures Os(SkipSpace(s)) == Os(s)
  {
    if s != "" && IsByteSpace(s[0]) {
      SkipSpaceOs(s[1..]);
      OsSplit(s, 1);
      assert s[..1] == [s[0]];
    }
  }

  lemma FirstNotO(s: string)
    requires s != "" && s[0] != 'o'
    ensures Os(s[1..]) == Os(s)
  {
    OsSplit(s, 1);
    assert s[..1] == [s[0]];
  }

  lemma BrHasNoO(m: string)
    requires AfterBr(m, "<", ">").Some?
    ensures Os(AfterBr(m, "<", ">").value) == Os(m)
  {
    assert m[0] == '<';
    FirstNotO(m);
    SkipSpaceOs(m[1..]);
    var t := SkipSpace(m[1..]);
    FirstNotO(t);
    FirstNotO(t[1..]);
    assert t[1..][1..] == t[2..];
    SkipSpaceOs(t[2..]);
    var u := SkipSpace(t[2..]);
    if u != "" && u[0] == '/' {
      FirstNotO(u);
      SkipSpaceOs(u[1..]);
    }
    var v := SkipSlash(t[2..]);
    assert v[0] == '>';
    FirstNotO(v);
  }

  lemma EscCharOs(c: char)
    ensures Os(EscChar(c)) == Os([c])
  {
  }

  lemma OsJoin(a: string, b: string)
    ensures Os(a + b) == Os(a) + Os(b)
  {
  }

  lemma EscKeepsOs(m: string, rest: string)
    requires m != "" && Os(rest) == Os(m[1..])
    ensures Os(EscChar(m[0]) + rest) == Os(m)
  {
    EscCharOs(m[0]);
    OsJoin(EscChar(m[0]), rest);
    OsJoin([m[0]], m[1..]);
    assert m == [m[0]] + m[1..];
  }

  lemma {:induction false} MapKeepsOs(m: string)
    ensures Os(MapMsg(m)) == Os(m)
    decreases |m|
  {
    if m != "" {
      var r := AfterBr(m, "<", ">");
      if r.Some? {
        BrHasNoO(m);
        MapKeepsOs(r.value);
      } else {
        MapKeepsOs(m[1..]);
        EscKeepsOs(m, MapMsg(m[1..]));
      }
    }
  }

  lemma TwoReplacesAddOs(m: string, p: string, r: string, q: string, u: string)
    requires p != "" && q != "" && Os(r) == Os(p) + 1 && Os(u) == Os(q) + 1
    ensures var s := Replace(Replace(m, p, r), q, u);
            Os(s) >= Os(m) && (Contains(m, p) || Contains(m, q) ==> Os(s) > Os(m))
  {
    ReplaceAddsOs(m, p, r);
    ReplaceAddsOs(Replace(m, p, r), q, u);
    if !Contains(m, p) { AbsentKept(m, p, r); }
  }

  lemma NoOsInNs()
    ensures Os("ns0:") == 0 && Os("ns0=") == 0
  {
  }

  lemma OneOInSoap()
    ensures Os("soap:") == 1 && Os("soap=") == 1
  {
  }

  lemma PrefixOs()
    ensures Os(SOAP) == Os(NS0) + 1 && Os(XMLNS_SOAP) == Os(XMLNS_NS0) + 1
  {
    NoOsInNs();
    OneOInSoap();
    OsJoin(XMLNS, "ns0=");
    OsJoin(XMLNS, "soap=");
  }

  lemma RenamedAddsOs(m: string)
    ensures Os(Renamed(m)) >= Os(m)
    ensures Contains(m, NS0) || Contains(m, XMLNS_NS0) ==> Os(Renamed(m)) > Os(m)
  {
    PrefixOs();
    TwoReplacesAddOs(m, NS0, SOAP, XMLNS_NS0, XMLNS_SOAP);
  }

  /** `value if value else "null"` */
  function Shown(value: string): string { if value == "" then "null" else value }

  /** The message's final text. */
  function FinalMsg(msg: string): string { Rewrite(Esc(Shown(msg))) }

  /** The customer's text is the intended map of the message exactly when the
      message is not empty and holds neither of the serialiser's own prefixes,
      which the first two rewrites would change inside the message too. */
  lemma MessageIsMappedExactly(msg: string)
    ensures FinalMsg(msg) == MapMsg(msg) <==> msg != "" && !Contains(msg, NS0) && !Contains(msg, XMLNS_NS0)
  {
    RewrittenText(Shown(msg));
    if msg == "" {
      RenamedAddsOs("null");
      MapNotEmpty(Renamed("null"));
    } else {
      RenamedAddsOs(msg);
      MapKeepsOs(Renamed(msg));
      MapKeepsOs(msg);
      if !Contains(msg, NS0) && !Contains(msg, XMLNS_NS0) {
        AbsentKept(msg, NS0, SOAP);
        AbsentKept(msg, XMLNS_NS0, XMLNS_SOAP);
      }
    }
  }

  lemma PrefixContainsItself()
    ensures Contains(NS0, NS0) && Contains(XMLNS_NS0, XMLNS_NS0)
  {
    assert NS0 <= NS0 && XMLNS_NS0 <= XMLNS_NS0;
  }

  lemma MessageIsChanged(m: string)
    requires m == "" || Contains(m, NS0) || Contains(m, XMLNS_NS0)
    ensures FinalMsg(m) != MapMsg(m)
  {
    MessageIsMappedExactly(m);
  }

  /** Messages that do not arrive as intended: either prefix, and nothing at all. */
  lemma ChangedMessages()
    ensures FinalMsg(NS0) != MapMsg(NS0) && FinalMsg(XMLNS_NS0) != MapMsg(XMLNS_NS0) && FinalMsg("") != MapMsg("")
  {
    PrefixContainsItself();
    MessageIsChanged(NS0);
    MessageIsChanged(XMLNS_NS0);
    MessageIsChanged("");
  }

  lemma MapNotEmpty(m: string)
    requires m != ""
    ensures MapMsg(m) != ""
  {
  }

  // ---- what the map keeps ---------------------------------------------------------------------

  /** How an XML reader sees a text, a <br> tag being taken literally. */
  function Unesc(s: string): string
    decreases |s|
  {
    if s == "" then ""
    else if "&amp;" <= s then "&" + Unesc(s[5..])
    else if "&lt;" <= s then "<" + Unesc(s[4..])
    else if "&gt;" <= s then ">" + Unesc(s[4..])
    else [s[0]] + Unesc(s[1..])
  }

  /** The message with every br tag spelt <br>. */
  function Normal(m: string): string
    decreases |m|
  {
    if m == "" then ""
    else
      var r := AfterBr(m, "<", ">");
      if r.Some? then "<br>" + Normal(r.value) else [m[0]] + Normal(m[1..])
  }

  lemma UnescChar(c: char, rest: string)
    ensures Unesc(EscChar(c) + rest) == [c] + Unesc(rest)
  {
    var s := EscChar(c) + rest;
    assert s[|EscChar(c)|..] == rest;
    if c != '&' && c != '<' && c != '>' {
      assert s[0] == c && "&amp;"[0] == '&' && "&lt;"[0] == '&' && "&gt;"[0] == '&';
    } else if c == '<' {
      assert s[1] == 'l' && "&amp;"[1] == 'a';
    } else if c == '>' {
      assert s[1] == 'g' && "&amp;"[1] == 'a' && "&lt;"[1] == 'l';
    }
  }

  lemma UnescRaw(c: char, rest: string)
    requires c != '&'
    ensures Unesc([c] + rest) == [c] + Unesc(rest)
  {
    var s := [c] + rest;
    assert s[1..] == rest && s[0] == c && "&amp;"[0] == '&' && "&lt;"[0] == '&' && "&gt;"[0] == '&';
  }

  lemma BrShape(x: string)
    ensures "<br>" + x == "<" + ("b" + ("r" + (">" + x)))
  {
  }

  lemma UnescBr(rest: string)
    ensures Unesc("<br>" + rest) == "<br>" + Unesc(rest)
  {
    UnescRaw('>', rest);
    UnescRaw('r', ">" + rest);
    UnescRaw('b', "r" + (">" + rest));
    UnescRaw('<', "b" + ("r" + (">" + rest)));
    BrShape(rest);
    BrShape(Unesc(rest));
  }

  /** Nothing but the spelling of br tags is lost: reading the mapped text back
      gives the message.  In particular, text that already read &lt;br&gt;
      is still that text. */
  lemma {:induction false} MapReadsBack(m: string)
    ensures Unesc(MapMsg(m)) == Normal(m)
    decreases |m|
  {
    if m != "" {
      var r := AfterBr(m, "<", ">");
      if r.Some? {
        MapReadsBack(r.value);
        UnescBr(MapMsg(r.value));
      } else {
        MapReadsBack(m[1..]);
        UnescChar(m[0], MapMsg(m[1..]));
      }
    }
  }

  // ---- the whole envelope ---------------------------------------------------------------------

  const DECL := "<?xml version='1.0'" + " encoding='utf-8'?>\n"
  const NS0_ENVELOPE := "<" + (NS0 + ("Envelope " + (XMLNS_NS0 + (SOAP_URL + ">"))))
  const INSERT_MO := "<InsertMO xmlns=" + "\"http://tempuri.org/\">"

  datatype Field = Field(tag: string, value: string)

  function Open(tag: string): string { "<" + tag + ">" }

  function Close(tag: string): string { "</" + tag + ">" }

  /** The serialised children of InsertMO. */
  function Elements(fields: seq<Field>): string {
    if fields == [] then ""
    else Open(fields[0].tag) + (Esc(Shown(fields[0].value)) + (Close(fields[0].tag) + Elements(fields[1..])))
  }

  /** tostring(), with the serialiser's automatic prefix ns0. */
  function Serialised(fields: seq<Field>): string {
    DECL + (NS0_ENVELOPE
        + ("<ns0:Body>" + (INSERT_MO + (Elements(fields) + ("</InsertMO>" + ("</ns0:Body>" + "</ns0:Envelope>"))))))
  }

  function FinalElements(fields: seq<Field>): string {
    if fields == [] then ""
    else
      var f := fields[0];
      Open(f.tag) + (MapMsg(Renamed(Shown(f.value))) + (Close(f.tag) + FinalElements(fields[1..])))
  }

  /** What Halotel gets. */
  function Posted(fields: seq<Field>): string {
    DECL + (FULL_ENVELOPE + ("<soap:Body>"
        + (INSERT_MO + (FinalElements(fields) + ("</InsertMO>" + ("</soap:Body>" + "</soap:Envelope>"))))))
  }

  predicate Lacks(s: string, cs: string) { forall c :: c in cs ==> c !in s }

  lemma HostShape()
    ensures Lacks(SOAP_HOST, "<>&0")
  {
  }

  lemma PathShape(path: string)
    requires path == "/soap/envelope/\""
    ensures Lacks(path, "<>&0")
  {
  }

  lemma UrlShape()
    ensures Lacks(SOAP_URL, "<>&0")
  {
    HostShape();
    PathShape("/soap/envelope/\"");
  }

  lemma DeclShape()
    ensures Lacks(SOAP_DECL, "<>&0") && SOAP_DECL[4] == ':' && SOAP_DECL[5] == 'E' && SOAP_DECL[14] == 'x'
  {
  }

  lemma Bracketed(mid: string)
    requires Lacks(mid, "<>")
    ensures var e := "<" + mid + ">"; '>' !in e[..|e| - 1] && '<' !in e[1..] && e[0] == '<'
    ensures forall c :: c in mid ==> c in "<" + mid + ">"
  {
    var e := "<" + mid + ">";
    assert e[..|e| - 1] == "<" + mid && e[1..] == mid + ">";
  }

  lemma EnvelopeShape()
    ensures '>' !in ENVELOPE[..|ENVELOPE| - 1] && '<' !in ENVELOPE[1..] && Opens(ENVELOPE) && Opens(FULL_ENVELOPE)
    ensures ':' in ENVELOPE && 'E' in ENVELOPE && 'x' in ENVELOPE
  {
    UrlShape();
    DeclShape();
    Bracketed(SOAP_DECL + SOAP_URL);
  }

  predicate Opens(s: string) { s != "" && s[0] == '<' }

  lemma OpensKept(b: string, pat: string, rep: string)
    requires Opens(b) && pat != "" && (pat[0] == '<' ==> Opens(rep))
    ensures Opens(Replace(b, pat, rep))
  {
  }

  /** The first three rewrites work on both sides of a "<" independently. */
  lemma DeclaredCut(a: string, b: string)
    requires Opens(b)
    ensures Declared(a + b) == Declared(a) + Declared(b) && Opens(Declared(b))
  {
    EnvelopeShape();
    assert '<' !in NS0 && '<' !in XMLNS_NS0;
    ReplaceCut(a, b, NS0, SOAP);
    OpensKept(b, NS0, SOAP);
    var a1, b1 := Replace(a, NS0, SOAP), Replace(b, NS0, SOAP);
    ReplaceCut(a1, b1, XMLNS_NS0, XMLNS_SOAP);
    OpensKept(b1, XMLNS_NS0, XMLNS_SOAP);
    ReplaceCut(Renamed(a), Renamed(b), ENVELOPE, FULL_ENVELOPE);
    OpensKept(Renamed(b), ENVELOPE, FULL_ENVELOPE);
  }

  lemma LtIsNoSpace(c: char)
    requires c == '<'
    ensures !IsByteSpace(c)
  {
  }

  lemma {:induction false} SkipSpaceCut(a: string, b: string)
    requires Opens(b)
    ensures SkipSpace(a + b) == SkipSpace(a) + b
  {
    if a == "" {
      assert a + b == b && SkipSpace(a) + b == b;
      LtIsNoSpace(b[0]);
    } else if IsByteSpace(a[0]) {
      assert (a + b)[1..] == a[1..] + b;
      SkipSpaceCut(a[1..], b);
    }
  }

  lemma SkipSlashCut(a: string, b: string)
    requires Opens(b)
    ensures SkipSlash(a + b) == SkipSlash(a) + b
  {
    SkipSpaceCut(a, b);
    var u := SkipSpace(a);
    if u != "" && u[0] == '/' {
      assert (u + b)[1..] == u[1..] + b;
      SkipSpaceCut(u[1..], b);
    }
  }

  lemma {:induction false} PrefixCut(pat: string, a: string, b: string)
    requires Opens(b) && '<' !in pat
    ensures pat <= a + b <==> pat <= a
    ensures pat <= a ==> (a + b)[|pat|..] == a[|pat|..] + b
  {
    if pat == "" || a == "" {
      assert a == "" ==> a + b == b;
    } else {
      PrefixCut(pat[1..], a[1..], b);
      assert pat == [pat[0]] + pat[1..] && a == [a[0]] + a[1..] && a + b == [a[0]] + (a[1..] + b);
    }
  }

  lemma AfterBrCut(a: string, b: string)
    requires Opens(b)
    ensures AfterBr(a + b, "&lt;", "&gt;")
         == if AfterBr(a, "&lt;", "&gt;").Some? then Some(AfterBr(a, "&lt;", "&gt;").value + b) else None
  {
    PrefixCut("&lt;", a, b);
    if "&lt;" <= a {
      SkipSpaceCut(a[4..], b);
      var t := SkipSpace(a[4..]);
      assert IsBr(t + b) == IsBr(t);
      if IsBr(t) {
        assert (t + b)[2..] == t[2..] + b;
        SkipSlashCut(t[2..], b);
        PrefixCut("&gt;", SkipSlash(t[2..]), b);
      }
    }
  }

  lemma {:induction false} UnescapeCut(a: string, b: string)
    requires Opens(b)
    ensures UnescapeBr(a + b) == UnescapeBr(a) + UnescapeBr(b)
    decreases |a|
  {
    if a == "" {
      assert a + b == b;
    } else {
      AfterBrCut(a, b);
      var r := AfterBr(a, "&lt;", "&gt;");
      if r.Some? {
        UnescapeCut(r.value, b);
        TagPasses(a);
        TagPasses(a + b);
        Regroup2("<br>", UnescapeBr(r.value), UnescapeBr(b));
      } else {
        assert (a + b)[1..] == a[1..] + b && (a + b)[0] == a[0];
        UnescapeCut(a[1..], b);
        CharPasses(a);
        CharPasses(a + b);
        Regroup2([a[0]], UnescapeBr(a[1..]), UnescapeBr(b));
      }
    }
  }

  lemma TagPasses(s: string)
    requires s != "" && AfterBr(s, "&lt;", "&gt;").Some?
    ensures UnescapeBr(s) == "<br>" + UnescapeBr(AfterBr(s, "&lt;", "&gt;").value)
  {
  }

  lemma Regroup2(a: string, b: string, c: string)
    ensures a + (b + c) == (a + b) + c
  {
  }

  /** So do all four. */
  lemma RewriteCut(a: string, b: string)
    requires Opens(b)
    ensures Rewrite(a + b) == Rewrite(a) + Rewrite(b)
  {
    DeclaredCut(a, b);
    UnescapeCut(Declared(a), Declared(b));
  }

  predicate PlainTag(tag: string) { tag != "" && tag[|tag| - 1] == '>' && ':' !in tag && '&' !in tag }

  /** A tag without a prefix stays, and does not disturb the text behind it. */
  lemma TagKept(tag: string, b: string)
    requires PlainTag(tag)
    ensures Rewrite(tag + b) == tag + Rewrite(b)
  {
    EnvelopeShape();
    assert '>' !in NS0 && '>' !in XMLNS_NS0;
    KeepFront(tag, b, NS0, SOAP, ':');
    KeepFront(tag, Replace(b, NS0, SOAP), XMLNS_NS0, XMLNS_SOAP, ':');
    KeepFront(tag, Renamed(b), ENVELOPE, FULL_ENVELOPE, ':');
    NoAmpKept(tag, Declared(b));
  }

  lemma KeepFront(a: string, b: string, pat: string, rep: string, c: char)
    requires pat != "" && Cut(a, b, pat) && c in pat && c !in a
    ensures Replace(a + b, pat, rep) == a + Replace(b, pat, rep)
  {
    ReplaceCut(a, b, pat, rep);
    MissingKept(a, pat, rep, c);
  }

  lemma UnprefixedKept(s: string)
    requires ':' !in s && '&' !in s
    ensures Rewrite(s) == s
  {
    EnvelopeShape();
    MissingKept(s, NS0, SOAP, ':');
    MissingKept(s, XMLNS_NS0, XMLNS_SOAP, ':');
    MissingKept(s, ENVELOPE, FULL_ENVELOPE, ':');
    AmpFree(s);
  }

  lemma AmpFree(s: string)
    requires '&' !in s
    ensures UnescapeBr(s) == s
  {
    NoAmpKept(s, "");
    assert s + "" == s;
  }

  /** One prefix, no declaration: only the prefix changes. */
  lemma PrefixRenamed(pre: string, post: string)
    requires pre != "" && pre[|pre| - 1] in "</" && Lacks(pre, "0x&") && Lacks(post, "0x&")
    ensures Rewrite(pre + (NS0 + post)) == pre + (SOAP + post)
  {
    EnvelopeShape();
    NsHit(pre, post);
    MissingKept(post, NS0, SOAP, '0');
    var s := pre + (SOAP + post);
    assert Lacks(SOAP, "0x&");
    assert Lacks(s, "0x&");
    MissingKept(s, XMLNS_NS0, XMLNS_SOAP, '0');
    MissingKept(s, ENVELOPE, FULL_ENVELOPE, 'x');
    AmpFree(s);
  }

  lemma NsHit(pre: string, post: string)
    requires pre != "" && pre[|pre| - 1] in "</" && '0' !in pre
    ensures Replace(pre + (NS0 + post), NS0, SOAP) == pre + (SOAP + Replace(post, NS0, SOAP))
  {
    KeepFront(pre, NS0 + post, NS0, SOAP, '0');
    assert (NS0 + post)[|NS0|..] == post;
  }

  lemma XmlnsKept(y: string)
    requires '0' !in y
    ensures Replace(XMLNS_NS0 + y, NS0, SOAP) == XMLNS_NS0 + y
  {
    assert XMLNS_NS0 + y == "xmlns:" + ("ns0=" + y);
    KeepFront("xmlns:", "ns0=" + y, NS0, SOAP, '0');
    KeepFront("ns0=", y, NS0, SOAP, ':');
    MissingKept(y, NS0, SOAP, '0');
  }

  lemma FirstPass(y: string)
    requires '0' !in y
    ensures Replace("<" + (NS0 + ("Envelope " + (XMLNS_NS0 + y))), NS0, SOAP)
         == "<" + (SOAP + ("Envelope " + (XMLNS_NS0 + y)))
  {
    NsHit("<", "Envelope " + (XMLNS_NS0 + y));
    KeepFront("Envelope ", XMLNS_NS0 + y, NS0, SOAP, '0');
    XmlnsKept(y);
  }

  lemma SecondPass(front: string, y: string)
    requires '0' !in y && '0' !in front && front != "" && front[|front| - 1] == ' '
    ensures Replace(front + (XMLNS_NS0 + y), XMLNS_NS0, XMLNS_SOAP) == front + (XMLNS_SOAP + y)
  {
    KeepFront(front, XMLNS_NS0 + y, XMLNS_NS0, XMLNS_SOAP, '0');
    assert (XMLNS_NS0 + y)[|XMLNS_NS0|..] == y;
    MissingKept(y, XMLNS_NS0, XMLNS_SOAP, '0');
  }

  lemma Regroup(a: string, b: string, c: string, d: string)
    ensures a + (b + (c + d)) == (a + (b + c)) + d
  {
  }

  /** The envelope's start tag, with any namespace address. */
  lemma StartTagRenamed(y: string)
    requires '0' !in y
    ensures Renamed("<" + (NS0 + ("Envelope " + (XMLNS_NS0 + y)))) == "<" + (SOAP + ("Envelope " + (XMLNS_SOAP + y)))
  {
    FirstPass(y);
    Regroup("<", SOAP, "Envelope ", XMLNS_NS0 + y);
    SecondPass("<" + (SOAP + "Envelope "), y);
    Regroup("<", SOAP, "Envelope ", XMLNS_SOAP + y);
  }

  lemma EnvelopeDeclared()
    ensures Rewrite(NS0_ENVELOPE) == FULL_ENVELOPE
  {
    UrlShape();
    DeclShape();
    StartTagRenamed(SOAP_URL + ">");
    SameEnvelope(SOAP_URL);
    WholeHit(ENVELOPE, FULL_ENVELOPE);
    XsiShape();
    AmpFree(FULL_ENVELOPE);
  }

  lemma SameEnvelope(url: string)
    ensures "<" + (SOAP + ("Envelope " + (XMLNS_SOAP + (url + ">")))) == "<" + (SOAP_DECL + url) + ">"
  {
    assert SOAP + ("Envelope " + XMLNS_SOAP) == SOAP_DECL;
  }

  lemma WholeHit(pat: string, rep: string)
    requires pat != ""
    ensures Replace(pat, pat, rep) == rep
  {
    assert pat[|pat|..] == "";
  }

  lemma W3Shape()
    ensures Lacks(W3_URL, "&")
  {
  }

  lemma XsiShape()
    ensures '&' !in XSI_XSD
  {
    W3Shape();
    assert '&' in "&";
  }

  lemma Unaffected(s: string)
    requires Lacks(s, "0E&")
    ensures Rewrite(s) == s
  {
    EnvelopeShape();
    MissingKept(s, NS0, SOAP, '0');
    MissingKept(s, XMLNS_NS0, XMLNS_SOAP, '0');
    MissingKept(s, ENVELOPE, FULL_ENVELOPE, 'E');
    AmpFree(s);
  }

  lemma InsertMoShape()
    ensures Lacks(INSERT_MO, "0E&") && Opens(INSERT_MO)
  {
  }

  lemma DeclarationShape()
    ensures ':' !in DECL && '&' !in DECL
  {
  }

  lemma OneElement(open: string, text: string, close: string, more: string)
    requires PlainTag(open) && PlainTag(close) && Opens(close)
    ensures Rewrite(open + (Esc(text) + (close + more))) == open + (MapMsg(Renamed(text)) + (close + Rewrite(more)))
  {
    TagKept(close, more);
    assert Opens(close + more);
    RewriteCut(Esc(text), close + more);
    RewrittenText(text);
    TagKept(open, Esc(text) + (close + more));
  }

  lemma Regroup4(a: string, b: string, c: string, d: string, e: string)
    ensures a + (b + (c + (d + e))) == (a + (b + (c + d))) + e
  {
  }

  predicate PlainName(tag: string) { ':' !in tag && '&' !in tag }

  lemma TagsPlain(tag: string)
    requires PlainName(tag)
    ensures PlainTag(Open(tag)) && PlainTag(Close(tag)) && Opens(Close(tag))
  {
  }

  predicate PlainNames(fields: seq<Field>) { forall i :: 0 <= i < |fields| ==> PlainName(fields[i].tag) }

  lemma {:induction false} ElementsRewritten(fields: seq<Field>, rest: string)
    requires PlainNames(fields)
    ensures Rewrite(Elements(fields) + rest) == FinalElements(fields) + Rewrite(rest)
  {
    if fields == [] {
      assert Elements(fields) + rest == rest && FinalElements(fields) + Rewrite(rest) == Rewrite(rest);
    } else {
      ElementsRewritten(fields[1..], rest);
      ElementFirst(Open(fields[0].tag), Close(fields[0].tag), Shown(fields[0].value), fields, rest);
    }
  }

  lemma ElementFirst(open: string, close: string, text: string, fields: seq<Field>, rest: string)
    requires fields != [] && PlainName(fields[0].tag)
    requires open == Open(fields[0].tag) && close == Close(fields[0].tag) && text == Shown(fields[0].value)
    requires Rewrite(Elements(fields[1..]) + rest) == FinalElements(fields[1..]) + Rewrite(rest)
    ensures Rewrite(Elements(fields) + rest) == FinalElements(fields) + Rewrite(rest)
  {
    TagsPlain(fields[0].tag);
    OneElement(open, text, close, Elements(fields[1..]) + rest);
    Regroup4(open, Esc(text), close, Elements(fields[1..]), rest);
    Regroup4(open, MapMsg(Renamed(text)), close, FinalElements(fields[1..]), Rewrite(rest));
  }

  lemma PrefixedTag(pre: string, post: string, was: string, now: string)
    requires pre == "<" || pre == "</"
    requires Lacks(post, "0x&") && was == pre + (NS0 + post) && now == pre + (SOAP + post)
    ensures Rewrite(was) == now && Opens(was)
  {
    PrefixRenamed(pre, post);
  }

  lemma Three(a: string, b: string, c: string, x: string, y: string, z: string)
    requires Opens(b) && Opens(c) && Rewrite(a) == x && Rewrite(b) == y && Rewrite(c) == z
    ensures Rewrite(a + (b + c)) == x + (y + z)
  {
    RewriteCut(b, c);
    RewriteCut(a, b + c);
  }

  lemma BodyTag(pre: string, tag: string, tag': string)
    requires (pre == "<" || pre == "</") && tag == pre + "ns0:Body>" && tag' == pre + "soap:Body>"
    ensures Rewrite(tag) == tag' && Opens(tag)
  {
    var post := "Body>";
    assert NS0 + post == "ns0:Body>" && SOAP + post == "soap:Body>";
    PrefixedTag(pre, post, tag, tag');
  }

  lemma EnvelopeEnd(tag: string, tag': string)
    requires tag == "</ns0:Envelope>" && tag' == "</soap:Envelope>"
    ensures Rewrite(tag) == tag' && Opens(tag)
  {
    var post := "Envelope>";
    assert "</" + (NS0 + post) == "</ns0:Envelope>" && "</" + (SOAP + post) == "</soap:Envelope>";
    PrefixedTag("</", post, tag, tag');
  }

  lemma InsertMoEnd(tag: string)
    requires tag == "</InsertMO>"
    ensures Rewrite(tag) == tag
  {
    UnprefixedKept(tag);
  }

  lemma TailRewritten(mo: string, body: string, env: string, body': string, env': string)
    requires mo == "</InsertMO>" && body == "</ns0:Body>" && env == "</ns0:Envelope>"
    requires body' == "</soap:Body>" && env' == "</soap:Envelope>"
    ensures Rewrite(mo + (body + env)) == mo + (body' + env')
  {
    InsertMoEnd(mo);
    BodyTag("</", body, body');
    EnvelopeEnd(env, env');
    Three(mo, body, env, mo, body', env');
  }

  lemma InsertMoKept(tag: string)
    requires tag == INSERT_MO
    ensures Rewrite(tag) == tag && Opens(tag)
  {
    InsertMoShape();
    Unaffected(tag);
  }

  lemma BodyRewritten(body: string, mo: string, rest: string, body': string)
    requires Opens(rest) && body == "<ns0:Body>" && body' == "<soap:Body>" && Rewrite(mo) == mo && Opens(mo)
    ensures Rewrite(body + (mo + rest)) == body' + (mo + Rewrite(rest))
  {
    BodyTag("<", body, body');
    Three(body, mo, rest, body', mo, Rewrite(rest));
  }

  lemma HeadRewritten(rest: string)
    requires Opens(rest)
    ensures Rewrite(DECL + (NS0_ENVELOPE + rest)) == DECL + (FULL_ENVELOPE + Rewrite(rest))
  {
    DeclarationShape();
    UnprefixedKept(DECL);
    EnvelopeDeclared();
    Three(DECL, NS0_ENVELOPE, rest, DECL, FULL_ENVELOPE, Rewrite(rest));
  }

  lemma ElementsOpen(fields: seq<Field>, rest: string)
    requires Opens(rest)
    ensures Opens(Elements(fields) + rest)
  {
  }

  /** The rewrites of the whole envelope touch what they are meant for, and the
      texts of the fields one by one. */
  lemma EnvelopeRewritten(fields: seq<Field>)
    requires PlainNames(fields)
    ensures Rewrite(Serialised(fields)) == Posted(fields)
  {
    var mo, body, env := "</InsertMO>", "</ns0:Body>", "</ns0:Envelope>";
    var body', env' := "</soap:Body>", "</soap:Envelope>";
    var open, open', start := "<ns0:Body>", "<soap:Body>", INSERT_MO;
    TailRewritten(mo, body, env, body', env');
    ElementsRewritten(fields, mo + (body + env));
    var inner := Elements(fields) + (mo + (body + env));
    ElementsOpen(fields, mo + (body + env));
    InsertMoKept(start);
    BodyRewritten(open, start, inner, open');
    HeadRewritten(open + (start + inner));
  }

  predicate OneOf(tag: string, a: string, b: string, c: string, d: string) {
    tag == a || tag == b || tag == c || tag == d
  }

  lemma PlainFirst(tag: string)
    requires OneOf(tag, "user", "pass", "msisdn", "msg")
    ensures PlainName(tag)
  {
  }

  lemma PlainSecond(tag: string)
    requires tag == "sessionid" || tag == "transactionid"
    ensures PlainName(tag)
  {
  }

  lemma PlainThird(tag: string)
    requires tag == "requestType" || tag == "ussdgw_id"
    ensures PlainName(tag)
  {
  }

  /** The children of InsertMO, in order. */
  function MoFields(user: string, pass: string, msisdn: string, msg: string, sessionid: string,
                    transactionid: string, requestType: string, ussdgwId: string): seq<Field> {
    [Field("user", user), Field("pass", pass), Field("msisdn", msisdn), Field("msg", msg),
        Field("sessionid", sessionid),
     Field("transactionid", transactionid), Field("requestType", requestType), Field("ussdgw_id", ussdgwId)]
  }

  /** None of their names needs rewriting. */
  lemma MoFieldsPlain(fields: seq<Field>)
    requires forall i :: 0 <= i < |fields| ==>
               OneOf(fields[i].tag, "user", "pass", "msisdn", "msg")
               || OneOf(fields[i].tag, "sessionid", "transactionid", "requestType", "ussdgw_id")
    ensures PlainNames(fields)
  {
    forall i | 0 <= i < |fields| ensures PlainName(fields[i].tag) {
      var tag := fields[i].tag;
      if OneOf(tag, "user", "pass", "msisdn", "msg") { PlainFirst(tag); }
      else if tag == "sessionid" || tag == "transactionid" { PlainSecond(tag); }
      else { PlainThird(tag); }
    }
  }

  method RewriteEnvelope(serialised: string) returns (raw: string)
    ensures raw == Rewrite(serialised)
  {
    raw := serialised;
    raw := Replace(raw, NS0, SOAP);
    raw := Replace(raw, XMLNS_NS0, XMLNS_SOAP);
    raw := Replace(raw, ENVELOPE, FULL_ENVELOPE);
    raw := UnescapeBr(raw);
  }

  /** Every field's text arrives as the intended map of its renamed value, and
      the rest of the envelope as Halotel wants it. */
  method BuildOutboundEnvelope(user: string, pass: string, msisdn: string, msg: string, sessionid: string,
                               transactionid: string, requestType: string, ussdgwId: string) returns (raw: string)
    ensures raw == Posted(MoFields(user, pass, msisdn, msg, sessionid, transactionid, requestType, ussdgwId))
  {
    var children: seq<Field> := [];
    children := children + [Field("user", user)];
    children := children + [Field("pass", pass)];
    children := children + [Field("msisdn", msisdn)];
    children := children + [Field("msg", msg)];
    children := children + [Field("sessionid", sessionid)];
    children := children + [Field("transactionid", transactionid)];
    children := children + [Field("requestType", requestType)];
    children := children + [Field("ussdgw_id", ussdgwId)];
    assert children == MoFields(user, pass, msisdn, msg, sessionid, transactionid, requestType, ussdgwId);
    MoFieldsPlain(children);
    EnvelopeRewritten(children);
    raw := RewriteEnvelope(Serialised(children));
  }
}
