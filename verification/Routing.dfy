/**
 Longest-prefix routing of a dialed code, the menu trail, and the short code
 that is logged.
 */
module Routing {
  import opened Options
  import opened Text
  import opened Dialing

  predicate NoStar(s: string) { '*' !in s }

  /** s.split("*") */
  function Split(s: string): (r: seq<string>)
    ensures r != []
  {
    if s == "" then [""]
    else if s[0] == '*' then [""] + Split(s[1..])
    else
      var r := Split(s[1..]);
      [[s[0]] + r[0]] + r[1..]
  }

  /** "*".join(segments) */
  function Join(segments: seq<string>): string {
    if segments == [] then ""
    else if |segments| == 1 then segments[0]
    else segments[0] + "*" + Join(segments[1..])
  }

  lemma {:induction false} SplitHasNoStar(s: string)
    ensures forall i :: 0 <= i < |Split(s)| ==> NoStar(Split(s)[i])
  {
    if s != "" { SplitHasNoStar(s[1..]); }
  }

  lemma JoinPushes(c: char, r: seq<string>)
    requires r != []
    ensures Join([[c] + r[0]] + r[1..]) == [c] + Join(r)
  {
    var t := [[c] + r[0]] + r[1..];
    assert t[1..] == r[1..];
    if |r| > 1 { assert [c] + r[0] + "*" + Join(r[1..]) == [c] + (r[0] + "*" + Join(r[1..])); }
  }

  lemma {:induction false} JoinOfSplit(s: string)
    ensures Join(Split(s)) == s
  {
    if s != "" {
      JoinOfSplit(s[1..]);
      var r := Split(s[1..]);
      assert [s[0]] + s[1..] == s;
      if s[0] == '*' {
        assert Split(s)[1..] == r && Join(Split(s)) == "" + "*" + Join(r);
      } else {
        JoinPushes(s[0], r);
      }
    }
  }

  lemma {:induction false} SplitFront(a: string, s: string)
    requires NoStar(a)
    ensures Split(a + "*" + s) == [a] + Split(s)
  {
    if a == "" {
      assert a + "*" + s == "*" + s && ("*" + s)[1..] == s;
    } else {
      assert NoStar(a[1..]);
      SplitFront(a[1..], s);
      assert (a + "*" + s)[1..] == a[1..] + "*" + s && [a[0]] + a[1..] == a;
    }
  }

  lemma {:induction false} SplitWhole(a: string)
    requires NoStar(a)
    ensures Split(a) == [a]
  {
    if a != "" {
      assert NoStar(a[1..]);
      SplitWhole(a[1..]);
      assert [a[0]] + a[1..] == a;
    }
  }

  lemma {:induction false} SplitOfJoin(segments: seq<string>)
    requires segments != [] && forall i :: 0 <= i < |segments| ==> NoStar(segments[i])
    ensures Split(Join(segments)) == segments
  {
    if |segments| == 1 {
      SplitWhole(segments[0]);
      assert segments == [segments[0]];
    } else {
      SplitOfJoin(segments[1..]);
      SplitFront(segments[0], Join(segments[1..]));
      assert segments == [segments[0]] + segments[1..];
    }
  }

  lemma {:induction false} JoinOfConcat(a: seq<string>, b: seq<string>)
    requires a != [] && b != []
    ensures Join(a + b) == Join(a) + "*" + Join(b)
  {
    if |a| == 1 {
      assert (a + b)[1..] == b;
    } else {
      assert (a + b)[1..] == a[1..] + b;
      JoinOfConcat(a[1..], b);
      assert a[0] + "*" + (Join(a[1..]) + "*" + Join(b)) == (a[0] + "*" + Join(a[1..])) + "*" + Join(b);
    }
  }

  // ---- longest prefix -----------------------------------------------------------------------

  datatype PrefixMatch = PrefixMatch(code: string, remainder: string)

  /** The code made of the first i dialed segments. */
  function Candidate(core: string, i: nat): string
    requires i <= |Split(core)|
  {
    Wrap(Join(Split(core)[..i]))
  }

  /** Linear scan, longest candidate first: the number of segments that match,
      or 0 when no candidate is registered. */
  function LongestPrefix(codes: set<string>, core: string, n: nat): (i: nat)
    requires n <= |Split(core)|
    ensures i <= n
  {
    if n == 0 then 0 else if Candidate(core, n) in codes then n else LongestPrefix(codes, core, n - 1)
  }

  lemma {:induction false} LongestPrefixIs(codes: set<string>, core: string, n: nat)
    requires n <= |Split(core)|
    ensures var i := LongestPrefix(codes, core, n);
            && (i > 0 ==> Candidate(core, i) in codes)
            && forall j :: i < j <= n ==> Candidate(core, j) !in codes
  {
    if n > 0 && Candidate(core, n) !in codes { LongestPrefixIs(codes, core, n - 1); }
  }

  /** core[len(matched_core) + 1:], or nothing when they are the same. */
  function Remainder(core: string, matchedCore: string): string {
    if core == matchedCore || |matchedCore| + 1 > |core| then "" else core[|matchedCore| + 1..]
  }

  function Lookup(codes: set<string>, dial: string): (r: Option<PrefixMatch>) {
    var core := Core(dial);
    if core == "" then None
    else
      var i := LongestPrefix(codes, core, |Split(core)|);
      if i == 0 then None
      else
        var code := Candidate(core, i);
        Some(PrefixMatch(code, Remainder(core, Core(code))))
  }

  lemma CandidateLengths(core: string, i: nat, j: nat)
    requires 1 <= i < j <= |Split(core)|
    ensures |Candidate(core, i)| < |Candidate(core, j)|
  {
    var s := Split(core);
    JoinOfConcat(s[..i], s[i..j]);
    assert s[..i] + s[i..j] == s[..j];
  }

  lemma {:induction false} LongestExists(hits: set<string>)
    requires hits != {}
    ensures exists m :: m in hits && forall h :: h in hits ==> |h| <= |m|
  {
    var x :| x in hits;
    if hits != {x} {
      LongestExists(hits - {x});
      var m :| m in hits - {x} && forall h :: h in hits - {x} ==> |h| <= |m|;
      var w := if |x| < |m| then m else x;
      assert w in hits && forall h :: h in hits ==> |h| <= |w|;
    }
  }

  /** SELECT code WHERE code = ANY(candidates) */
  function Hits(codes: set<string>, core: string): set<string> {
    set k | 1 <= k <= |Split(core)| && Candidate(core, k) in codes :: Candidate(core, k)
  }

  lemma NoHitsExactly(codes: set<string>, core: string)
    ensures Hits(codes, core) == {} <==> LongestPrefix(codes, core, |Split(core)|) == 0
  {
    LongestPrefixIs(codes, core, |Split(core)|);
    var i := LongestPrefix(codes, core, |Split(core)|);
    if i > 0 { assert Candidate(core, i) in Hits(codes, core); }
  }

  lemma LongestHitIsScanned(codes: set<string>, core: string, matched: string)
    requires matched in Hits(codes, core) && forall h :: h in Hits(codes, core) ==> |h| <= |matched|
    ensures var i := LongestPrefix(codes, core, |Split(core)|); i > 0 && matched == Candidate(core, i)
  {
    LongestPrefixIs(codes, core, |Split(core)|);
    var i := LongestPrefix(codes, core, |Split(core)|);
    var k :| 1 <= k <= |Split(core)| && Candidate(core, k) in codes && matched == Candidate(core, k);
    assert k <= i;
    assert Candidate(core, i) in Hits(codes, core);
    if k < i { CandidateLengths(core, k, i); }
  }

  /** The registered candidates, longest one first, limit 1: the same code the
      linear scan finds. */
  method LookupShortcodeByDialPrefix(codes: set<string>, dial: string) returns (r: Option<PrefixMatch>)
    ensures r == Lookup(codes, dial)
  {
    var core := Core(dial);
    if core == "" { return None; }
    var hits := Hits(codes, core);
    NoHitsExactly(codes, core);
    if hits == {} { return None; }
    LongestExists(hits);
    var matched :| matched in hits && forall h :: h in hits ==> |h| <= |matched|;
    LongestHitIsScanned(codes, core, matched);
    r := Some(PrefixMatch(matched, Remainder(core, Core(matched))));
  }

  /** A prefix of the dial, in whole segments, that is registered. */
  predicate RegisteredPrefix(codes: set<string>, core: string, i: nat) {
    1 <= i <= |Split(core)| && Candidate(core, i) in codes
  }

  lemma FirstCharOfPrefix(core: string, i: nat)
    requires core != "" && core[0] != '*' && 1 <= i <= |Split(core)|
    ensures var p := Join(Split(core)[..i]); p != "" && p[0] != '*'
    ensures i < |Split(core)| ==> core == Join(Split(core)[..i]) + "*" + Join(Split(core)[i..])
    ensures i == |Split(core)| ==> core == Join(Split(core)[..i])
  {
    var s := Split(core);
    JoinOfSplit(core);
    if i < |s| {
      assert s == s[..i] + s[i..];
      JoinOfConcat(s[..i], s[i..]);
    } else {
      assert s[..i] == s;
    }
    assert Split(core)[0] != "";
    assert s[..i][0] == s[0];
  }

  /** No match means that no prefix is registered; a match is the longest
      registered prefix. */
  lemma MatchIsLongest(codes: set<string>, dial: string)
    ensures var core := Core(dial);
            match Lookup(codes, dial)
            case None => core == "" || forall i :: !RegisteredPrefix(codes, core, i)
            case Some(m) => exists i :: RegisteredPrefix(codes, core, i) && m.code == Candidate(core, i)
                              && forall j :: j > i ==> !RegisteredPrefix(codes, core, j)
  {
    var core := Core(dial);
    if core != "" {
      LongestPrefixIs(codes, core, |Split(core)|);
      var i := LongestPrefix(codes, core, |Split(core)|);
      if i > 0 { assert RegisteredPrefix(codes, core, i); }
    }
  }

  predicate EndsWithHash(s: string) { s != "" && s[|s| - 1] == '#' }

  lemma CoreOfWrapped(p: string)
    requires p != "" && p[0] != '*'
    ensures Core(Wrap(p)) == DropRight(p + "#", IsHash)
  {
    var star, s := "*", p + "#";
    assert star + s == Wrap(p);
    DropLeftIs(star, s, IsStar);
  }

  lemma HashesDropped(p: string)
    requires EndsWithHash(p)
    ensures var mc := DropRight(p + "#", IsHash); |mc| < |p| && mc == p[..|mc|] && p[|mc|] == '#'
  {
    var s := p + "#";
    var mc := DropRight(s, IsHash);
    DropRightFacts(s, IsHash);
    assert s[|p| - 1] == '#' && s[|p|] == '#';
    assert mc != "" ==> mc[|mc| - 1] == s[|mc| - 1] && !IsHash(s[|mc| - 1]);
    assert |mc| < |p|;
    assert IsHash(s[|mc|]) && s[|mc|] == p[|mc|];
    assert mc == s[..|mc|] == p[..|mc|];
  }

  /** For a dial whose first segments are p. */
  lemma RemainderExactly(core: string, p: string, rest: string)
    requires p != "" && p[0] != '*' && ((core == p && !EndsWithHash(p)) || core == p + "*" + rest)
    ensures var mc := Core(Wrap(p));
            var r := Remainder(core, mc);
            (core == mc && r == "") || core == mc + "*" + r <==> !EndsWithHash(p)
    ensures !EndsWithHash(p) ==> Core(Wrap(p)) == p && Remainder(core, p) == if core == p then "" else rest
  {
    if !EndsWithHash(p) {
      CoreWrapped(p);
      if core != p { assert core[|p| + 1..] == rest; }
    } else {
      CoreOfWrapped(p);
      HashesDropped(p);
      var mc := Core(Wrap(p));
      assert core[|mc|] == p[|mc|] == '#';
      assert (mc + "*")[|mc|] == '*';
    }
  }

  /** The remainder is what was dialed behind the matched code, for every
      match, exactly when the matched segments do not themselves end in '#'. */
  lemma CoreIsCodePlusRemainderExactly(codes: set<string>, dial: string)
    requires Lookup(codes, dial).Some?
    ensures var core := Core(dial);
            var m := Lookup(codes, dial).value;
            var matched := Join(Split(core)[..LongestPrefix(codes, core, |Split(core)|)]);
            var mc := Core(m.code);
            (core == mc && m.remainder == "") || core == mc + "*" + m.remainder <==> !EndsWithHash(matched)
  {
    var core := Core(dial);
    var n := |Split(core)|;
    var i := LongestPrefix(codes, core, n);
    var k := CoreIsSlice(dial);
    FirstCharOfPrefix(core, i);
    RemainderExactly(core, Join(Split(core)[..i]), if i < n then Join(Split(core)[i..]) else "");
  }

  /** What a lookup promises: the core is the matched core, or that, a star, and
      the remainder. */
  predicate Splits(dial: string, m: PrefixMatch) {
    var core, mc := Core(dial), Core(m.code);
    (core == mc && m.remainder == "") || core == mc + "*" + m.remainder
  }

  /** No registered code ends in two hashes. */
  predicate NoDoubleHash(codes: set<string>) { forall c :: c in codes ==> !DoubleHash(c) }

  predicate DoubleHash(c: string) { |c| >= 3 && c[0] == '*' && c[1] != '*' && c[|c| - 1] == '#' && c[|c| - 2] == '#' }

  lemma WrappedDoubleHash(p: string)
    requires p != "" && p[0] != '*'
    ensures DoubleHash(Wrap(p)) <==> EndsWithHash(p)
  {
    var c := Wrap(p);
    assert c[1] == p[0] && c[|c| - 2] == p[|p| - 1];
  }

  lemma MatchedSegments(codes: set<string>, dial: string)
    requires Lookup(codes, dial).Some?
    ensures var m := Lookup(codes, dial).value;
            var p := Join(Split(Core(dial))[..LongestPrefix(codes, Core(dial), |Split(Core(dial))|)]);
            p != "" && p[0] != '*' && m.code == Wrap(p) && m.code in codes
  {
    var core := Core(dial);
    var n := |Split(core)|;
    var k := CoreIsSlice(dial);
    LongestPrefixIs(codes, core, n);
    FirstCharOfPrefix(core, LongestPrefix(codes, core, n));
  }

  /** Every dial without a hash inside its core splits. */
  lemma PlainDialSplits(codes: set<string>, dial: string)
    requires Lookup(codes, dial).Some? && '#' !in Core(dial)
    ensures Splits(dial, Lookup(codes, dial).value)
  {
    var core := Core(dial);
    var i := LongestPrefix(codes, core, |Split(core)|);
    var p := Join(Split(core)[..i]);
    var k := CoreIsSlice(dial);
    CoreIsCodePlusRemainderExactly(codes, dial);
    FirstCharOfPrefix(core, i);
    assert core[|p| - 1] == p[|p| - 1] && core[|p| - 1] in core;
  }

  lemma {:induction false} SplitSnoc(p: string, x: string)
    requires NoStar(x)
    ensures Split(p + "*" + x) == Split(p) + [x]
  {
    var segments := Split(p);
    SplitHasNoStar(p);
    JoinOfSplit(p);
    JoinOfConcat(segments, [x]);
    assert forall i :: 0 <= i < |segments + [x]| ==> NoStar((segments + [x])[i]);
    SplitOfJoin(segments + [x]);
  }

  /** A dial that finds this code with one more segment behind it. */
  lemma DialFinds(codes: set<string>, p: string, x: string)
    requires p != "" && p[0] != '*' && Wrap(p) in codes
    requires x != "" && NoStar(x) && !EndsWithHash(x) && Wrap(p + "*" + x) !in codes
    ensures var core := p + "*" + x;
            Core(Wrap(core)) == core && LongestPrefix(codes, core, |Split(core)|) == |Split(p)|
                && Join(Split(core)[..|Split(p)|]) == p
  {
    var core := p + "*" + x;
    LastCharOfJoin(p, x);
    CoreWrapped(core);
    SplitSnoc(p, x);
    var n := |Split(p)|;
    assert Split(core)[..n] == Split(p) && Split(core)[..n + 1] == Split(core);
    JoinOfSplit(p);
    JoinOfSplit(core);
    assert Candidate(core, n + 1) == Wrap(core) && Candidate(core, n) == Wrap(p);
  }

  /** A digit string longer than every code. */
  lemma LongDigits(codes: set<string>) returns (x: string)
    ensures x != "" && NoStar(x) && !EndsWithHash(x) && forall c :: c in codes ==> |c| <= |x|
  {
    x := "1";
    var rest := codes;
    while rest != {}
      invariant x != "" && NoStar(x) && x[|x| - 1] == '1' && rest <= codes
      invariant forall c :: c in codes && c !in rest ==> |c| <= |x|
      decreases rest
    {
      var c :| c in rest;
      if |c| > |x| { x := seq(|c|, i => '1'); }
      rest := rest - {c};
    }
  }

  /** Every dial that finds a code splits into it and its remainder, exactly when
      no registered code ends in two hashes. */
  lemma EveryDialSplitsExactly(codes: set<string>)
    ensures (forall dial :: Lookup(codes, dial).Some? ==> Splits(dial, Lookup(codes, dial).value))
        <==> NoDoubleHash(codes)
  {
    if NoDoubleHash(codes) {
      forall dial | Lookup(codes, dial).Some? ensures Splits(dial, Lookup(codes, dial).value) {
        var core := Core(dial);
        var p := Join(Split(core)[..LongestPrefix(codes, core, |Split(core)|)]);
        MatchedSegments(codes, dial);
        WrappedDoubleHash(p);
        CoreIsCodePlusRemainderExactly(codes, dial);
      }
    } else {
      var c :| c in codes && DoubleHash(c);
      var dial := UnsplitDial(codes, c);
    }
  }

  /** The dial a code ending in two hashes fails on. */
  lemma UnsplitDial(codes: set<string>, c: string) returns (dial: string)
    requires c in codes && DoubleHash(c)
    ensures Lookup(codes, dial).Some? && !Splits(dial, Lookup(codes, dial).value)
  {
    var p := c[1..|c| - 1];
    assert c == Wrap(p);
    WrappedDoubleHash(p);
    var x := LongDigits(codes);
    assert |Wrap(p + "*" + x)| > |x|;
    DialFinds(codes, p, x);
    dial := Wrap(p + "*" + x);
    CoreIsCodePlusRemainderExactly(codes, dial);
  }

  /** With the code *1## registered, dialing *1#*2# leaves the remainder "*2": it
      starts one character early. */
  lemma RemainderKeepsTheStar()
    ensures Lookup({"*1##"}, "*1#*2#") == Some(PrefixMatch("*1##", "*2"))
    ensures !Splits("*1#*2#", PrefixMatch("*1##", "*2"))
  {
    var p, x := "1#", "2";
    assert Wrap(p) == "*1##" && Wrap(p + "*" + x) == "*1#*2#" && p + "*" + x == "1#*2";
    DialFinds({"*1##"}, p, x);
    CoreOfWrapped(p);
    assert p + "#" == "1" + "##";
    DropRightIs("1", "##", IsHash);
    assert Core("*1##") == "1" && "1#*2"[2..] == "*2";
  }

  // ---- the menu trail ------------------------------------------------------------------------

  function Append(prior: string, t: string): string {
    if t == "" then prior else if prior == "" then t else prior + "*" + t
  }

  function Accumulate(prior: string, input: string): string { Append(prior, Strip(input)) }

  /** The trail after a run of inputs. */
  function Trail(prior: string, inputs: seq<string>): string
    decreases |inputs|
  {
    if inputs == [] then prior else Trail(Accumulate(prior, inputs[0]), inputs[1..])
  }

  function NonEmpty(s: string): seq<string> { if s == "" then [] else [s] }

  /** The inputs that count: stripped, blank ones dropped. */
  function Kept(inputs: seq<string>): seq<string> {
    if inputs == [] then [] else NonEmpty(Strip(inputs[0])) + Kept(inputs[1..])
  }

  lemma AppendIsJoin(prior: string, t: string, more: seq<string>)
    ensures Join(NonEmpty(Append(prior, t)) + more) == Join(NonEmpty(prior) + (NonEmpty(t) + more))
  {
    if t == "" {
      assert [] + more == more;
    } else if prior == "" {
      assert [] + ([t] + more) == [t] + more;
    } else {
      MergeFirst(prior, t, more);
      assert [prior] + ([t] + more) == [prior, t] + more;
    }
  }

  /** The trail is the '*'-join of the start and every input that counts. */
  lemma {:induction false} TrailIsJoin(prior: string, inputs: seq<string>)
    ensures Trail(prior, inputs) == Join(NonEmpty(prior) + Kept(inputs))
    decreases |inputs|
  {
    if inputs == [] {
      assert NonEmpty(prior) + Kept(inputs) == NonEmpty(prior);
    } else {
      TrailIsJoin(Accumulate(prior, inputs[0]), inputs[1..]);
      AppendIsJoin(prior, Strip(inputs[0]), Kept(inputs[1..]));
    }
  }

  lemma MergeFirst(a: string, b: string, more: seq<string>)
    ensures Join([a + "*" + b] + more) == Join([a, b] + more)
  {
    assert ([a, b] + more)[1..] == [b] + more;
    if more == [] {
      assert [a + "*" + b] + more == [a + "*" + b] && [b] + more == [b];
    } else {
      assert ([a + "*" + b] + more)[1..] == more && ([b] + more)[1..] == more;
      assert (a + "*" + b) + "*" + Join(more) == a + "*" + (b + "*" + Join(more));
    }
  }

  /** Inputs as a subscriber types them: one segment each, not blank. */
  predicate Typed(inputs: seq<string>) {
    forall i :: 0 <= i < |inputs| ==> NoStar(inputs[i]) && Strip(inputs[i]) == inputs[i] && inputs[i] != ""
  }

  lemma {:induction false} TypedAreKept(inputs: seq<string>)
    requires Typed(inputs)
    ensures Kept(inputs) == inputs
  {
    if inputs != [] {
      assert Typed(inputs[1..]) by {
        forall i | 0 <= i < |inputs[1..]|
          ensures NoStar(inputs[1..][i]) && Strip(inputs[1..][i]) == inputs[1..][i] && inputs[1..][i] != ""
        {
          assert inputs[1..][i] == inputs[i + 1];
        }
      }
      TypedAreKept(inputs[1..]);
      assert [inputs[0]] + inputs[1..] == inputs;
    }
  }

  /** No registered code is a longer prefix of the dial than the code itself. */
  predicate NothingLonger(codes: set<string>, core: string, i: nat) {
    forall j :: i < j <= |Split(core)| ==> Candidate(core, j) !in codes
  }

  lemma {:induction false} ScanStopsAt(codes: set<string>, core: string, i: nat, n: nat)
    requires 1 <= i <= n <= |Split(core)| && Candidate(core, i) in codes
    requires forall j :: i < j <= n ==> Candidate(core, j) !in codes
    ensures LongestPrefix(codes, core, n) == i
  {
    if i < n {
      assert Candidate(core, n) !in codes;
      ScanStopsAt(codes, core, i, n - 1);
    }
  }

  lemma LastCharOfJoin(a: string, b: string)
    requires b != ""
    ensures (a + "*" + b)[|a + "*" + b| - 1] == b[|b| - 1]
  {
  }

  /** Dialing a code with the choices appended leaves the handler with the same
      trail as dialing the code and typing the choices one by one. */
  lemma InlineDialEqualsTyping(codes: set<string>, p: seq<string>, inputs: seq<string>)
    requires p != [] && inputs != [] && Typed(inputs) && forall i :: 0 <= i < |p| ==> NoStar(p[i])
    requires p[0] != "" && !EndsWithHash(Join(p)) && !EndsWithHash(Join(inputs)) && Join(inputs) != ""
    requires Wrap(Join(p)) in codes && NothingLonger(codes, Join(p) + "*" + Join(inputs), |p|)
    ensures Lookup(codes, Wrap(Join(p) + "*" + Join(inputs))) == Some(PrefixMatch(Wrap(Join(p)), Trail("", inputs)))
  {
    var a, b := Join(p), Join(inputs);
    var core := a + "*" + b;
    JoinOfConcat(p, inputs);
    assert forall i :: 0 <= i < |p + inputs| ==> NoStar((p + inputs)[i]);
    SplitOfJoin(p + inputs);
    assert Split(core)[..|p|] == p;
    LastCharOfJoin(a, b);
    assert core[0] == a[0] == p[0][0];
    CoreWrapped(core);
    ScanStopsAt(codes, core, |p|, |Split(core)|);
    RemainderExactly(core, a, b);
    TypedAreKept(inputs);
    TrailIsJoin("", inputs);
    assert NonEmpty("") + inputs == inputs;
  }

  // ---- the short code that is logged -----------------------------------------------------------

  function DropEmpty(segments: seq<string>): seq<string> {
    if segments == [] then [] else NonEmpty(segments[0]) + DropEmpty(segments[1..])
  }

  function FirstTwo(segments: seq<string>): seq<string> { if |segments| <= 2 then segments else segments[..2] }

  function ShortSegments(core: string): seq<string> { FirstTwo(DropEmpty(Split(core))) }

  function Shorten(core: string): string {
    if ShortSegments(core) == [] then "" else Wrap(Join(ShortSegments(core)))
  }

  /** The first two segments of a dial, re-wrapped. */
  function CanonicalShortcode(dial: string): string { Shorten(Core(Strip(dial))) }

  lemma {:induction false} DropEmptyKeeps(segments: seq<string>)
    ensures forall s :: s in DropEmpty(segments) ==> s != "" && s in segments
  {
    if segments != [] {
      DropEmptyKeeps(segments[1..]);
      assert forall s :: s in segments[1..] ==> s in segments;
    }
  }

  lemma {:induction false} NothingToDrop(segments: seq<string>)
    requires forall s :: s in segments ==> s != ""
    ensures DropEmpty(segments) == segments
  {
    if segments != [] {
      assert forall s :: s in segments[1..] ==> s in segments;
      assert segments[0] in segments;
      NothingToDrop(segments[1..]);
      assert [segments[0]] + segments[1..] == segments;
    }
  }

  lemma JoinFirstChar(kept: seq<string>)
    requires kept != [] && kept[0] != "" && NoStar(kept[0])
    ensures Join(kept) != "" && Join(kept)[0] == kept[0][0] && Join(kept)[0] != '*'
  {
    assert kept[0][0] in kept[0];
  }

  lemma ShortSegmentsAreClean(core: string)
    ensures |ShortSegments(core)| <= 2 && forall s :: s in ShortSegments(core) ==> s != "" && NoStar(s)
  {
    SplitHasNoStar(core);
    DropEmptyKeeps(Split(core));
    var d := DropEmpty(Split(core));
    assert forall s :: s in FirstTwo(d) ==> s in d;
  }

  lemma CanonicalOfWrapped(k: string)
    ensures CanonicalShortcode(Wrap(k)) == Shorten(Core(Wrap(k)))
  {
    StripWrapped(k);
  }

  lemma ShortSegmentsOfJoin(kept: seq<string>)
    requires 1 <= |kept| <= 2 && forall s :: s in kept ==> s != "" && NoStar(s)
    ensures ShortSegments(Join(kept)) == kept
  {
    assert forall i :: 0 <= i < |kept| ==> kept[i] in kept;
    SplitOfJoin(kept);
    NothingToDrop(kept);
  }

  lemma {:induction false} DroppingShortens(segments: seq<string>)
    ensures |Join(DropEmpty(segments))| <= |Join(segments)|
    ensures segments != [] && DropEmpty(segments[1..]) == [] ==> |Join(DropEmpty(segments))| <= |segments[0]|
  {
    if segments != [] {
      DroppingShortens(segments[1..]);
      var d := DropEmpty(segments[1..]);
      if segments[0] == "" {
        assert NonEmpty(segments[0]) + d == d;
      } else {
        assert ([segments[0]] + d)[1..] == d;
      }
    }
  }

  lemma FirstTwoShortens(segments: seq<string>)
    ensures |Join(FirstTwo(segments))| <= |Join(segments)|
  {
    if |segments| > 2 {
      JoinOfConcat(segments[..2], segments[2..]);
      assert segments[..2] + segments[2..] == segments;
    }
  }

  lemma ShortenOfJoin(kept: seq<string>)
    requires 1 <= |kept| <= 2 && forall s :: s in kept ==> s != "" && NoStar(s)
    ensures Shorten(Join(kept)) == Wrap(Join(kept))
  {
    ShortSegmentsOfJoin(kept);
  }

  lemma WrappedIsFixed(k: string)
    requires k != "" && k[0] != '*' && !EndsWithHash(k) && Shorten(k) == Wrap(k)
    ensures Shorten(Core(Wrap(k))) == Wrap(k)
  {
    CoreWrapped(k);
  }

  lemma ShortenIsShorter(core: string)
    ensures Shorten(core) == "" || |Shorten(core)| <= |core| + 2
  {
    DroppingShortens(Split(core));
    FirstTwoShortens(DropEmpty(Split(core)));
    JoinOfSplit(core);
  }

  lemma HashIsLost(k: string)
    requires EndsWithHash(k) && k[0] != '*'
    ensures Shorten(Core(Wrap(k))) != Wrap(k)
  {
    CoreOfWrapped(k);
    HashesDropped(k);
    ShortenIsShorter(Core(Wrap(k)));
  }

  /** Deriving the short code again changes nothing, exactly when the segment
      it ends with does not itself end in '#'. */
  lemma CanonicalIsFixedExactly(dial: string)
    requires CanonicalShortcode(dial) != ""
    ensures CanonicalShortcode(CanonicalShortcode(dial)) == CanonicalShortcode(dial)
        <==> !EndsWithHash(Join(ShortSegments(Core(Strip(dial)))))
  {
    var kept := ShortSegments(Core(Strip(dial)));
    var k := Join(kept);
    ShortSegmentsAreClean(Core(Strip(dial)));
    assert kept[0] in kept;
    JoinFirstChar(kept);
    CanonicalOfWrapped(k);
    ShortenOfJoin(kept);
    if EndsWithHash(k) { HashIsLost(k); } else { WrappedIsFixed(k); }
  }

  lemma ShortSegmentsOfRouted(a: string, b: string, rest: string)
    requires a != "" && b != "" && NoStar(a) && NoStar(b)
    ensures ShortSegments(a + "*" + (b + "*" + rest)) == [a, b]
  {
    SplitFront(a, b + "*" + rest);
    SplitFront(b, rest);
    var tail := Split(rest);
    assert ([a] + ([b] + tail))[1..] == [b] + tail && ([b] + tail)[1..] == tail;
    assert DropEmpty([a] + ([b] + tail)) == [a] + ([b] + DropEmpty(tail));
  }

  lemma ShortenRouted(a: string, b: string, rest: string)
    requires a != "" && b != "" && NoStar(a) && NoStar(b)
    ensures Shorten(a + "*" + (b + "*" + rest)) == Wrap(a + "*" + b)
  {
    ShortSegmentsOfRouted(a, b, rest);
    assert [a, b][1..] == [b] && Join([b]) == b && Join([a, b]) == a + "*" + b;
  }

  lemma EndsOfDial(a: string, b: string, rest: string)
    requires a != "" && NoStar(a) && rest != ""
    ensures var core := a + "*" + (b + "*" + rest); core[0] != '*' && core[|core| - 1] == rest[|rest| - 1]
  {
    assert a[0] in a;
  }

  /** Whatever is dialed behind a registered two-segment code, the code itself
      is what gets logged. */
  lemma ShortcodeOfRoutedDial(a: string, b: string, rest: string)
    requires a != "" && b != "" && NoStar(a) && NoStar(b) && rest != "" && !EndsWithHash(rest)
    ensures CanonicalShortcode(Wrap(a + "*" + (b + "*" + rest))) == Wrap(a + "*" + b)
  {
    var core := a + "*" + (b + "*" + rest);
    EndsOfDial(a, b, rest);
    CoreWrapped(core);
    CanonicalOfWrapped(core);
    ShortenRouted(a, b, rest);
  }

  lemma WrapWithHash(a: string, b: string)
    requires a != "" && b != "" && NoStar(a) && !EndsWithHash(b)
    ensures Core(Wrap(a + "*" + (b + "#"))) == a + "*" + b
  {
    var k := a + "*" + (b + "#");
    assert a[0] in a;
    CoreOfWrapped(k);
    assert k + "#" == (a + "*" + b) + "##";
    DropRightIs(a + "*" + b, "##", IsHash);
  }

  /** Whatever is dialed behind a two-segment code that ends in '#' is logged as
      that code the first time, and without its '#' the second. */
  lemma CanonicalCanLoseAHash(a: string, b: string, rest: string)
    requires a != "" && b != "" && NoStar(a) && NoStar(b) && !EndsWithHash(b) && rest != "" && !EndsWithHash(rest)
    ensures var once := CanonicalShortcode(Wrap(a + "*" + (b + "#" + ("*" + rest))));
            once == Wrap(a + "*" + (b + "#")) && CanonicalShortcode(once) == Wrap(a + "*" + b) != once
  {
    var k := a + "*" + (b + "#");
    assert a + "*" + (b + "#" + ("*" + rest)) == a + "*" + ((b + "#") + "*" + rest);
    ShortcodeOfRoutedDial(a, b + "#", rest);
    CanonicalOfWrapped(k);
    WrapWithHash(a, b);
    var kept := [a, b];
    assert kept[1..] == [b] && Join([b]) == b && Join(kept) == a + "*" + b;
    ShortenOfJoin(kept);
    assert |Wrap(k)| == |Wrap(a + "*" + b)| + 1;
  }

  // ---- the code of a log row ---------------------------------------------------------------------

  /** _log_service_code: the short code of what was dialed, when there is one, else
      the code the request was routed by. */
  function LogServiceCode(dialed: string, serviceCode: string): string {
    var derived := if dialed == "" then "" else CanonicalShortcode(dialed);
    if derived != "" then derived else serviceCode
  }

  /** What is logged: the routed code when nothing usable was dialed; else at most
      two clean segments of the dial; and for any dial behind a registered
      two-segment code, that code. */
  lemma LoggedCode(dialed: string, serviceCode: string)
    ensures ShortSegments(Core(Strip(dialed))) == [] ==> LogServiceCode(dialed, serviceCode) == serviceCode
    ensures ShortSegments(Core(Strip(dialed))) != [] ==>
              (LogServiceCode(dialed, serviceCode) == Wrap(Join(ShortSegments(Core(Strip(dialed)))))
               && |ShortSegments(Core(Strip(dialed)))| <= 2)
  {
    if dialed == "" {
      assert Strip("") == "" && Core("") == "" && Split("") == [""] && [""][1..] == [];
      assert DropEmpty([""]) == [];
    }
    ShortSegmentsAreClean(Core(Strip(dialed)));
  }

  lemma LoggedCodeOfRoutedDial(a: string, b: string, rest: string, serviceCode: string)
    requires a != "" && b != "" && NoStar(a) && NoStar(b) && rest != "" && !EndsWithHash(rest)
    ensures LogServiceCode(Wrap(a + "*" + (b + "*" + rest)), serviceCode) == Wrap(a + "*" + b)
  {
    ShortcodeOfRoutedDial(a, b, rest);
  }
}
