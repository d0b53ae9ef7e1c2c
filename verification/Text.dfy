/** Small text functions several components share. */
module Text {

  function LowerChar(c: char): char {
    if 'A' <= c <= 'Z' then (c as int + 32) as char else c
  }

  /** The 26 capitals change, each to its own small letter. */
  lemma LowerCharExactly(c: char)
    ensures LowerChar(c) == c <==> !('A' <= c <= 'Z')
    ensures 'A' <= c <= 'Z' ==> LowerChar(c) as int - 'a' as int == c as int - 'A' as int
  {
  }

  /** Lower case over ASCII letters; other characters are left alone. */
  function Lower(s: string): (r: string)
    ensures |r| == |s|
  {
    if s == "" then "" else [LowerChar(s[0])] + Lower(s[1..])
  }

  /** What str.isspace() accepts. */
  predicate IsSpace(c: char) {
    || c == ' ' || '\t' <= c <= '\r' || '\U{1c}' <= c <= '\U{1f}' || c == '\U{85}' || c == '\U{a0}' || c == '\U{1680}'
    || '\U{2000}' <= c <= '\U{200a}' || c == '\U{2028}' || c == '\U{2029}' || c == '\U{202f}' || c == '\U{205f}'
    || c == '\U{3000}'
  }

  /** \s in a regular expression over bytes. */
  predicate IsByteSpace(c: char) { c == ' ' || '\t' <= c <= '\r' }

  predicate Blank(s: string) { forall i :: 0 <= i < |s| ==> IsSpace(s[i]) }

  // ---- stripping -----------------------------------------------------------------------

  /** s without its longest front of p characters. */
  function DropLeft(s: string, p: char -> bool): string {
    if s != "" && p(s[0]) then DropLeft(s[1..], p) else s
  }

  function DropRight(s: string, p: char -> bool): string {
    if s != "" && p(s[|s| - 1]) then DropRight(s[..|s| - 1], p) else s
  }

  lemma {:induction false} DropLeftFacts(s: string, p: char -> bool)
    ensures var r := DropLeft(s, p);
            && |r| <= |s| && r == s[|s| - |r|..] && (r != "" ==> !p(r[0]))
            && forall i :: 0 <= i < |s| - |r| ==> p(s[i])
  {
    if s != "" && p(s[0]) {
      var t, r := s[1..], DropLeft(s, p);
      DropLeftFacts(t, p);
      assert r == DropLeft(t, p) && t[|t| - |r|..] == s[|s| - |r|..];
      forall i | 0 <= i < |s| - |r| ensures p(s[i]) { if i > 0 { assert s[i] == t[i - 1]; } }
    } else {
      assert s[|s| - |s|..] == s;
    }
  }

  lemma {:induction false} DropRightFacts(s: string, p: char -> bool)
    ensures var r := DropRight(s, p);
            && r <= s && (r != "" ==> !p(r[|r| - 1]))
            && forall i :: |r| <= i < |s| ==> p(s[i])
  {
    if s != "" && p(s[|s| - 1]) {
      var t, r := s[..|s| - 1], DropRight(s, p);
      DropRightFacts(t, p);
      assert r == DropRight(t, p);
      forall i | |r| <= i < |s| ensures p(s[i]) { if i < |t| { assert s[i] == t[i]; } }
    }
  }

  /** str.strip() */
  function Strip(s: string): string { DropRight(DropLeft(s, IsSpace), IsSpace) }

  predicate All(s: string, p: char -> bool) { forall i :: 0 <= i < |s| ==> p(s[i]) }

  lemma DropLeftIs(a: string, b: string, p: char -> bool)
    requires All(a, p) && (b != "" ==> !p(b[0]))
    ensures DropLeft(a + b, p) == b
  {
    var s := a + b;
    DropLeftFacts(s, p);
    var r := DropLeft(s, p);
    assert forall i :: 0 <= i < |a| ==> s[i] == a[i];
    assert (r != "" ==> r[0] == s[|s| - |r|]) && (b != "" ==> s[|a|] == b[0]);
    assert s[|a|..] == b;
  }

  lemma DropRightIs(a: string, b: string, p: char -> bool)
    requires All(b, p) && (a != "" ==> !p(a[|a| - 1]))
    ensures DropRight(a + b, p) == a
  {
    var s := a + b;
    DropRightFacts(s, p);
    var r := DropRight(s, p);
    assert forall i :: |a| <= i < |s| ==> s[i] == b[i - |a|];
    assert (r != "" ==> r[|r| - 1] == s[|r| - 1]) && (a != "" ==> s[|a| - 1] == a[|a| - 1]);
    assert s[..|a|] == a;
  }

  // ---- replacing -----------------------------------------------------------------------

  /** str.replace and bytes.replace: leftmost first, without overlap. */
  function Replace(s: string, pat: string, rep: string): string
    requires pat != ""
    decreases |s|
  {
    if s == "" then ""
    else if pat <= s then rep + Replace(s[|pat|..], pat, rep)
    else [s[0]] + Replace(s[1..], pat, rep)
  }

  /** A text that lacks one of the pattern's characters is left alone. */
  lemma {:induction false} MissingKept(s: string, pat: string, rep: string, c: char)
    requires c in pat && c !in s
    ensures Replace(s, pat, rep) == s
  {
    if s != "" {
      assert c !in s[1..];
      MissingKept(s[1..], pat, rep, c);
      assert [s[0]] + s[1..] == s;
    }
  }

  predicate Contains(s: string, pat: string) { s != "" && (pat <= s || Contains(s[1..], pat)) }

  lemma {:induction false} AbsentKept(s: string, pat: string, rep: string)
    requires pat != "" && !Contains(s, pat)
    ensures Replace(s, pat, rep) == s
  {
    if s != "" {
      AbsentKept(s[1..], pat, rep);
      assert [s[0]] + s[1..] == s;
    }
  }

  /** No occurrence of the pattern can lie across a | b. */
  predicate Cut(a: string, b: string, pat: string)
    requires pat != ""
  {
    a == "" || b == "" || a[|a| - 1] !in pat[..|pat| - 1] || b[0] !in pat[1..]
  }

  lemma Overhang(a: string, b: string, pat: string)
    requires a != "" && |a| < |pat| && pat <= a + b
    ensures !Cut(a, b, pat)
  {
    assert (a + b)[|a| - 1] == pat[..|pat| - 1][|a| - 1];
    assert (a + b)[|a|] == pat[1..][|a| - 1];
  }

  lemma {:induction false} ReplaceCut(a: string, b: string, pat: string, rep: string)
    requires pat != "" && Cut(a, b, pat)
    ensures Replace(a + b, pat, rep) == Replace(a, pat, rep) + Replace(b, pat, rep)
    decreases |a|
  {
    if a == "" {
      assert a + b == b;
    } else if pat <= a + b {
      if |a| < |pat| { Overhang(a, b, pat); }
      assert (a + b)[|pat|..] == a[|pat|..] + b;
      ReplaceCut(a[|pat|..], b, pat, rep);
    } else {
      assert !(pat <= a);
      assert (a + b)[1..] == a[1..] + b && (a + b)[0] == a[0];
      ReplaceCut(a[1..], b, pat, rep);
    }
  }
}

/** Values that may be absent (SQL NULL, JavaScript null or undefined, Python None). */
module Options {
  datatype Option<+T> = None | Some(value: T) {
    function GetOr(default: T): T { if Some? then value else default }
  }
}
