/**
 Which texts the last rewrite takes for a br tag, spelt out, and so what every
 message becomes.
 */
module BrTags {
  import opened Options
  import opened Text
  import opened Halotel

  /** Nothing but the white space of a regular expression over bytes. */
  predicate Gap(s: string) {
    forall i :: 0 <= i < |s| ==>
      s[i] == ' ' || s[i] == '\t' || s[i] == '\n' || s[i] == '\U{b}' || s[i] == '\U{c}' || s[i] == '\r'
  }

  /** The parts of a br tag: "<", a gap, the letters in either case, a gap, at
      most one slash, a gap, ">". */
  datatype Tag = Tag(p: string, b: char, r: char, q: string, slash: string, z: string) {
    predicate Valid() {
      && Gap(p) && (b == 'b' || b == 'B') && (r == 'r' || r == 'R')
      && Gap(q) && (slash == "" || slash == "/") && Gap(z)
    }

    function Text(): string { "<" + (p + ([b, r] + Inner())) }

    function Inner(): string { q + (slash + (z + ">")) }
  }

  lemma {:induction false} GapSkipped(p: string, rest: string)
    requires Gap(p) && (rest == "" || !Gap([rest[0]]))
    ensures SkipSpace(p + rest) == rest
  {
    if p == "" {
      assert p + rest == rest;
      if rest != "" { assert [rest[0]][0] == rest[0] && !IsByteSpace(rest[0]); }
    } else {
      assert (p + rest)[1..] == p[1..] + rest && IsByteSpace(p[0]);
      GapSkipped(p[1..], rest);
    }
  }

  lemma {:induction false} SkippedIsGap(s: string) returns (p: string)
    ensures Gap(p) && s == p + SkipSpace(s)
  {
    if s != "" && IsByteSpace(s[0]) {
      var t := SkippedIsGap(s[1..]);
      p := [s[0]] + t;
      assert s == [s[0]] + s[1..];
    } else {
      p := "";
    }
  }

  lemma GtEndsGap(rest: string)
    ensures !Gap([(">" + rest)[0]])
  {
    assert (">" + rest)[0] == '>' && ['>'][0] == '>';
  }

  lemma SlashEndsGap(rest: string)
    ensures !Gap([("/" + rest)[0]]) && ("/" + rest)[0] == '/' && ("/" + rest)[1..] == rest
  {
    assert ['/'][0] == '/';
  }

  lemma GapsJoin(q: string, z: string, end: string)
    requires Gap(q) && Gap(z)
    ensures Gap(q + z) && q + ("" + (z + end)) == (q + z) + end
  {
    assert "" + (z + end) == z + end;
  }

  /** Behind the letters: gaps around at most one slash. */
  lemma SlashSkipped(q: string, slash: string, z: string, end: string)
    requires Gap(q) && (slash == "" || slash == "/") && Gap(z) && end != "" && !Gap([end[0]]) && end[0] != '/'
    ensures SkipSlash(q + (slash + (z + end))) == end
  {
    if slash == "" {
      GapsJoin(q, z, end);
      GapSkipped(q + z, end);
    } else {
      SlashEndsGap(z + end);
      GapSkipped(q, slash + (z + end));
      GapSkipped(z, end);
    }
  }

  lemma SkippedSlash(s: string) returns (q: string, slash: string, z: string)
    ensures Gap(q) && (slash == "" || slash == "/") && Gap(z) && s == q + (slash + (z + SkipSlash(s)))
  {
    q := SkippedIsGap(s);
    var u := SkipSpace(s);
    if u != "" && u[0] == '/' {
      z := SkippedIsGap(u[1..]);
      slash := "/";
      assert u == "/" + u[1..];
    } else {
      slash, z := "", "";
      assert "" + ("" + u) == u;
    }
  }

  lemma TagParts(t: Tag, rest: string)
    ensures t.Text() + rest == "<" + (t.p + ([t.b, t.r] + (t.q + (t.slash + (t.z + (">" + rest))))))
  {
    var inner := t.q + (t.slash + (t.z + (">" + rest)));
    assert t.Inner() + rest == inner;
    assert ([t.b, t.r] + t.Inner()) + rest == [t.b, t.r] + inner;
  }

  /** Every spelling is recognised, with what follows it. */
  lemma TagIsFound(t: Tag, rest: string)
    requires t.Valid()
    ensures AfterBr(t.Text() + rest, "<", ">") == Some(rest)
  {
    var inner := t.q + (t.slash + (t.z + (">" + rest)));
    var u := [t.b, t.r] + inner;
    var s := "<" + (t.p + u);
    TagParts(t, rest);
    assert "<" <= s && s[1..] == t.p + u && u[0] == t.b && u[1] == t.r && u[2..] == inner;
    assert [u[0]][0] == t.b;
    GapSkipped(t.p, u);
    GtEndsGap(rest);
    SlashSkipped(t.q, t.slash, t.z, ">" + rest);
    assert (">" + rest)[1..] == rest;
  }

  /** Nothing else is. */
  lemma FoundIsTag(m: string) returns (t: Tag)
    requires AfterBr(m, "<", ">").Some?
    ensures t.Valid() && m == t.Text() + AfterBr(m, "<", ">").value
  {
    var rest := AfterBr(m, "<", ">").value;
    var p := SkippedIsGap(m[1..]);
    var u := SkipSpace(m[1..]);
    var q, slash, z := SkippedSlash(u[2..]);
    assert SkipSlash(u[2..]) == ">" + rest;
    assert u == [u[0], u[1]] + u[2..] && m == "<" + m[1..];
    LetterIs(u[0], 'b', 'B');
    LetterIs(u[1], 'r', 'R');
    t := Tag(p, u[0], u[1], q, slash, z);
    TagParts(t, rest);
  }

  lemma LetterIs(c: char, low: char, high: char)
    requires 'a' <= low <= 'z' && high as int + 32 == low as int
    ensures LowerChar(c) == low <==> c == low || c == high
  {
  }

  /** A br tag starts the text. */
  ghost predicate StartsTag(m: string) { exists t: Tag, rest: string :: t.Valid() && m == t.Text() + rest }

  lemma StartsTagExactly(m: string)
    ensures StartsTag(m) <==> AfterBr(m, "<", ">").Some?
  {
    if t: Tag, rest: string :| t.Valid() && m == t.Text() + rest { TagIsFound(t, rest); }
    if AfterBr(m, "<", ">").Some? {
      var t := FoundIsTag(m);
      assert t.Valid() && m == t.Text() + AfterBr(m, "<", ">").value;
    }
  }

  /** Every spelling of the tag becomes <br>, and the rest goes on. */
  lemma TagBecomesBr(p: string, b: char, r: char, q: string, slash: string, z: string, rest: string)
    requires Gap(p) && (b == 'b' || b == 'B') && (r == 'r' || r == 'R')
    requires Gap(q) && (slash == "" || slash == "/") && Gap(z)
    ensures MapMsg(("<" + (p + ([b, r] + (q + (slash + (z + ">")))))) + rest) == "<br>" + MapMsg(rest)
  {
    var t := Tag(p, b, r, q, slash, z);
    TagIsFound(t, rest);
    assert t.Text() + rest != "";
  }

  /** Every other character is escaped where it must be and kept where it need
      not: together with the lemma above this is all there is to the map. */
  lemma OthersAreEscaped(m: string)
    requires m != "" && !StartsTag(m)
    ensures m[0] == '<' ==> MapMsg(m) == "&lt;" + MapMsg(m[1..])
    ensures m[0] == '>' ==> MapMsg(m) == "&gt;" + MapMsg(m[1..])
    ensures m[0] == '&' ==> MapMsg(m) == "&amp;" + MapMsg(m[1..])
    ensures m[0] != '<' && m[0] != '>' && m[0] != '&' ==> MapMsg(m) == [m[0]] + MapMsg(m[1..])
  {
    StartsTagExactly(m);
  }

  // ---- the fields of the envelope ---------------------------------------------------------------

  /** What becomes of one value: an empty one is sent as "null". */
  function Sent(value: string): string { MapMsg(Renamed(if value == "" then "null" else value)) }

  function Element(tag: string, value: string, rest: string): string {
    "<" + tag + ">" + (Sent(value) + ("</" + tag + ">" + rest))
  }

  lemma OneField(f: Field, rest: seq<Field>)
    ensures FinalElements([f] + rest) == Element(f.tag, f.value, FinalElements(rest))
  {
    assert ([f] + rest)[1..] == rest;
  }

  lemma FourFields(a: Field, b: Field, c: Field, d: Field, rest: seq<Field>)
    ensures FinalElements([a, b, c, d] + rest)
         == Element(a.tag, a.value, Element(b.tag, b.value, Element(c.tag, c.value,
              Element(d.tag, d.value, FinalElements(rest)))))
  {
    assert [a, b, c, d] + rest == [a] + ([b] + ([c] + ([d] + rest)));
    OneField(a, [b] + ([c] + ([d] + rest)));
    OneField(b, [c] + ([d] + rest));
    OneField(c, [d] + rest);
    OneField(d, rest);
  }

  /** The eight elements of the message, under their names and in order. */
  lemma FieldsAre(user: string, pass: string, msisdn: string, msg: string, sessionid: string,
                  transactionid: string, requestType: string, ussdgwId: string)
    ensures FinalElements(MoFields(user, pass, msisdn, msg, sessionid, transactionid, requestType, ussdgwId))
         == Element("user", user, Element("pass", pass, Element("msisdn", msisdn, Element("msg", msg,
              Element("sessionid", sessionid, Element("transactionid", transactionid,
                Element("requestType", requestType, Element("ussdgw_id", ussdgwId, ""))))))))
  {
    var a, b, c, d := Field("user", user), Field("pass", pass), Field("msisdn", msisdn), Field("msg", msg);
    var e, f, g, h := Field("sessionid", sessionid), Field("transactionid", transactionid),
      Field("requestType", requestType), Field("ussdgw_id", ussdgwId);
    FieldsSplit(a, b, c, d, e, f, g, h);
    FourFields(a, b, c, d, [e, f, g, h]);
    FourFields(e, f, g, h, []);
  }

  lemma FieldsSplit(a: Field, b: Field, c: Field, d: Field, e: Field, f: Field, g: Field, h: Field)
    ensures [a, b, c, d, e, f, g, h] == [a, b, c, d] + [e, f, g, h] && [e, f, g, h] + [] == [e, f, g, h]
  {
  }
}
