/**
 The text functions around a dialed code: normalising it, finding the longest
 registered prefix, deriving the two-segment short code, and growing the menu
 trail.
 */
module Dialing {
  import opened Options
  import opened Text

  predicate IsStar(c: char) { c == '*' }

  predicate IsHash(c: char) { c == '#' }

  const ESCAPED_HASH := "%23"

  /** s.lstrip("*").rstrip("#") */
  function Core(s: string): string { DropRight(DropLeft(s, IsStar), IsHash) }

  /** s.replace("%23", "#") */
  function Unquoted(s: string): string { Replace(s, ESCAPED_HASH, "#") }

  function Wrap(core: string): string { "*" + core + "#" }

  /** `*core#`, or nothing at all. */
  function NormaliseDialed(raw: string): string {
    var s := Strip(raw);
    if s == "" then ""
    else
      var core := Core(Unquoted(s));
      if core == "" then "" else Wrap(core)
  }

  // ---- normalising ------------------------------------------------------------------------

  predicate EscapeAt(s: string, i: nat) { i + 2 < |s| && s[i] == '%' && s[i + 1] == '2' && s[i + 2] == '3' }

  predicate NoEscape(s: string) { forall i: nat :: i < |s| ==> !EscapeAt(s, i) }

  lemma EscapeIsPrefix(s: string)
    ensures ESCAPED_HASH <= s <==> EscapeAt(s, 0)
  {
    assert ESCAPED_HASH == ['%', '2', '3'];
    if EscapeAt(s, 0) { assert s[..3] == ['%', '2', '3']; }
  }

  lemma EscapeInTail(s: string, k: nat)
    requires k <= |s|
    ensures forall i: nat :: EscapeAt(s[k..], i) <==> EscapeAt(s, k + i)
  {
  }

  lemma {:induction false} NoEscapeKept(s: string)
    requires NoEscape(s)
    ensures Unquoted(s) == s
  {
    if s != "" {
      EscapeIsPrefix(s);
      EscapeInTail(s, 1);
      forall i: nat | i < |s[1..]| ensures !EscapeAt(s[1..], i) { assert !EscapeAt(s, 1 + i); }
      NoEscapeKept(s[1..]);
      assert [s[0]] + s[1..] == s;
    }
  }

  predicate Starts23(s: string) { |s| >= 2 && s[0] == '2' && s[1] == '3' }

  /** What replacing makes of the first character. */
  lemma UnquotedFirst(t: string)
    ensures t == "" ==> Unquoted(t) == ""
    ensures t != "" ==> Unquoted(t) != "" && (Unquoted(t)[0] == '#' || Unquoted(t) == [t[0]] + Unquoted(t[1..]))
  {
  }

  lemma StartsWith23(t: string)
    ensures Starts23(Unquoted(t)) ==> Starts23(t)
  {
    UnquotedFirst(t);
    if t != "" {
      UnquotedFirst(t[1..]);
      if Unquoted(t) == [t[0]] + Unquoted(t[1..]) && t[1..] != "" { assert Unquoted(t)[1] == Unquoted(t[1..])[0]; }
    }
  }

  lemma NoEscapeCons(c: char, x: string)
    requires NoEscape(x) && !(c == '%' && Starts23(x))
    ensures NoEscape([c] + x)
  {
    var s := [c] + x;
    assert s[1..] == x;
    EscapeInTail(s, 1);
    forall i: nat | i < |s| ensures !EscapeAt(s, i) {
      if i > 0 {
        assert !EscapeAt(x, i - 1);
        assert EscapeAt(s[1..], i - 1) <==> EscapeAt(s, 1 + (i - 1));
      }
    }
  }

  lemma {:induction false} NoEscapeLeft(s: string)
    ensures NoEscape(Unquoted(s))
    decreases |s|
  {
    if s != "" {
      EscapeIsPrefix(s);
      if ESCAPED_HASH <= s {
        NoEscapeLeft(s[3..]);
        NoEscapeCons('#', Unquoted(s[3..]));
      } else {
        NoEscapeLeft(s[1..]);
        StartsWith23(s[1..]);
        NoEscapeCons(s[0], Unquoted(s[1..]));
      }
    }
  }

  lemma CoreIsSlice(s: string) returns (i: nat)
    ensures i + |Core(s)| <= |s| && Core(s) == s[i..i + |Core(s)|]
    ensures Core(s) != "" ==> Core(s)[0] != '*' && Core(s)[|Core(s)| - 1] != '#'
  {
    var l := DropLeft(s, IsStar);
    DropLeftFacts(s, IsStar);
    DropRightFacts(l, IsHash);
    i := |s| - |l|;
  }

  lemma StripIs(a: string, m: string, b: string)
    requires Blank(a) && Blank(b) && m != "" && !IsSpace(m[0]) && !IsSpace(m[|m| - 1])
    ensures Strip(a + (m + b)) == m
  {
    assert (m + b)[0] == m[0];
    DropLeftIs(a, m + b, IsSpace);
    DropRightIs(m, b, IsSpace);
  }

  lemma CoreIs(a: string, m: string, b: string)
    requires All(a, IsStar) && All(b, IsHash) && m != "" && m[0] != '*' && m[|m| - 1] != '#'
    ensures Core(a + (m + b)) == m
  {
    assert (m + b)[0] == m[0];
    DropLeftIs(a, m + b, IsStar);
    DropRightIs(m, b, IsHash);
  }

  predicate CleanCore(w: string) {
    w != "" && w[0] != '*' && w[|w| - 1] != '#' && NoEscape(w)
  }

  lemma WrapHasNoEscape(w: string)
    requires NoEscape(w)
    ensures NoEscape(Wrap(w))
  {
    var s := w + "#";
    forall i: nat | i < |s| ensures !EscapeAt(s, i) {
      assert i < |w| ==> !EscapeAt(w, i);
    }
    NoEscapeCons('*', s);
    assert ['*'] + s == Wrap(w);
  }

  lemma StripWrapped(w: string)
    ensures Strip(Wrap(w)) == Wrap(w)
  {
    StripIs("", Wrap(w), "");
    assert "" + (Wrap(w) + "") == Wrap(w);
  }

  lemma CoreWrapped(w: string)
    requires w != "" && w[0] != '*' && w[|w| - 1] != '#'
    ensures Core(Wrap(w)) == w
  {
    var a, b := "*", "#";
    CoreIs(a, w, b);
    assert a + (w + b) == Wrap(w);
  }

  lemma CleanIsFixed(w: string)
    requires CleanCore(w)
    ensures NormaliseDialed(Wrap(w)) == Wrap(w)
  {
    var s := Wrap(w);
    StripWrapped(w);
    WrapHasNoEscape(w);
    NoEscapeKept(s);
    CoreWrapped(w);
  }

  lemma SliceHasNoEscape(s: string, t: string, k: nat)
    requires NoEscape(s) && k + |t| <= |s| && t == s[k..k + |t|]
    ensures NoEscape(t)
  {
    forall i: nat | i < |t| ensures !EscapeAt(t, i) { assert !EscapeAt(s, k + i); }
  }

  lemma CoreIsClean(s: string)
    requires NoEscape(s) && Core(s) != ""
    ensures CleanCore(Core(s))
  {
    var k := CoreIsSlice(s);
    SliceHasNoEscape(s, Core(s), k);
  }

  lemma UnquotedCoreIsClean(t: string)
    requires Core(Unquoted(t)) != ""
    ensures CleanCore(Core(Unquoted(t)))
  {
    NoEscapeLeft(t);
    CoreIsClean(Unquoted(t));
  }

  lemma NormalisedIs(raw: string, s: string, core: string)
    requires s == Strip(raw) && core == Core(Unquoted(s))
    ensures NormaliseDialed(raw) == if s == "" || core == "" then "" else Wrap(core)
  {
  }

  /** What comes out is empty or a wrapped clean code. */
  lemma NormalForm(raw: string)
    ensures NormaliseDialed(raw) == "" || exists w :: CleanCore(w) && NormaliseDialed(raw) == Wrap(w)
  {
    var s := Strip(raw);
    var core := Core(Unquoted(s));
    NormalisedIs(raw, s, core);
    if core != "" { UnquotedCoreIsClean(s); }
  }

  /** Normalising again changes nothing. */
  lemma NormaliseIsIdempotent(raw: string)
    ensures NormaliseDialed(NormaliseDialed(raw)) == NormaliseDialed(raw)
  {
    NormalForm(raw);
    var n := NormaliseDialed(raw);
    if n != "" {
      var w :| CleanCore(w) && n == Wrap(w);
      CleanIsFixed(w);
    } else {
      assert Strip("") == "";
    }
  }

  /** Any mix of '#' and its URL-encoded form. */
  predicate HashTail(t: string)
    decreases |t|
  {
    t == "" || (t[0] == '#' && HashTail(t[1..])) || (ESCAPED_HASH <= t && HashTail(t[3..]))
  }

  lemma {:induction false} HashTailReplaced(t: string)
    requires HashTail(t)
    ensures All(Unquoted(t), IsHash)
    ensures t != "" ==> !IsSpace(t[|t| - 1]) && (t[0] == '#' || t[0] == '%')
    decreases |t|
  {
    assert ESCAPED_HASH[0] == '%' && ESCAPED_HASH[2] == '3';
    if t == "" {
    } else if t[0] == '#' {
      HashTailReplaced(t[1..]);
    } else {
      HashTailReplaced(t[3..]);
    }
  }

  lemma VariantUnquoted(stars: string, w: string, hashes: string)
    requires All(stars, IsStar) && CleanCore(w) && HashTail(hashes)
    ensures Unquoted(stars + (w + hashes)) == stars + (w + Unquoted(hashes))
  {
    HashTailReplaced(hashes);
    assert ESCAPED_HASH[..2] == "%2" && ESCAPED_HASH[1..] == "23";
    ReplaceCut(w, hashes, ESCAPED_HASH, "#");
    NoEscapeKept(w);
    ReplaceCut(stars, w + hashes, ESCAPED_HASH, "#");
    assert forall c :: c in stars ==> IsStar(c);
    assert ESCAPED_HASH[0] == '%' && '%' !in stars;
    MissingKept(stars, ESCAPED_HASH, "#", '%');
  }

  lemma VariantStripped(lead: string, stars: string, w: string, hashes: string, trail: string)
    requires Blank(lead) && All(stars, IsStar) && HashTail(hashes) && Blank(trail)
    requires w != "" && !IsSpace(w[0]) && !IsSpace(w[|w| - 1])
    ensures Strip(lead + ((stars + (w + hashes)) + trail)) == stars + (w + hashes)
  {
    HashTailReplaced(hashes);
    var m := stars + (w + hashes);
    assert m[0] == (if stars == "" then w[0] else stars[0]);
    assert m[|m| - 1] == (if hashes == "" then w[|w| - 1] else hashes[|hashes| - 1]);
    StripIs(lead, m, trail);
  }

  /** All the variants networks send, with or without stars in front and hashes
      behind, hashes URL-encoded or not, in any surrounding white space, come
      out the same. */
  lemma VariantsCollapse(lead: string, stars: string, w: string, hashes: string, trail: string)
    requires Blank(lead) && All(stars, IsStar) && HashTail(hashes) && Blank(trail)
    requires CleanCore(w) && !IsSpace(w[0]) && !IsSpace(w[|w| - 1])
    ensures NormaliseDialed(lead + ((stars + (w + hashes)) + trail)) == Wrap(w)
  {
    VariantStripped(lead, stars, w, hashes, trail);
    VariantUnquoted(stars, w, hashes);
    HashTailReplaced(hashes);
    CoreIs(stars, w, Unquoted(hashes));
  }
}
