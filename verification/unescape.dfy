/**
 * `String#unescape`: two chained `gsub` rewrites, each guarded by the
 * negative lookbehind `(?<!\\)`. A `gsub` scans its input left to right,
 * replacing each match and resuming after it; the lookbehind always looks
 * at the character before the match in the pass's own input.
 */
module Unescape {

  const Backslash: char := '\\'
  const Quote: char := '"'

  /** The first pass rewrites `\"` into `"`. */
  const EscapedQuote: string := [Backslash, Quote]
  const PlainQuote: string := [Quote]

  /** The second pass rewrites `\\"` into `\"`. */
  const DoubleEscapedQuote: string := [Backslash, Backslash, Quote]

  predicate NoBackslash(s: string)
  {
    forall i :: 0 <= i < |s| ==> s[i] != Backslash
  }

  /** `pat` occurs in `s` at position `i`. */
  predicate OccursAt(s: string, i: nat, pat: string)
  {
    i + |pat| <= |s| && s[i..i + |pat|] == pat
  }

  lemma OccursAtFirst(s: string, i: nat, pat: string)
    requires 0 < |pat|
    ensures OccursAt(s, i, pat) ==> i < |s| && s[i] == pat[0]
  {
    if OccursAt(s, i, pat) {
      assert s[i..i + |pat|][0] == s[i];
    }
  }

  /** The regex `(?<!\\)pat` matches at `i`: `pat` is there and the character before it is not a backslash. */
  predicate MatchAt(s: string, i: nat, pat: string)
  {
    (i == 0 || (i <= |s| && s[i - 1] != Backslash)) && OccursAt(s, i, pat)
  }

  /** The output of `s.gsub(/(?<!\\)pat/, rep)` from position `i` on. */
  function Rewrite(s: string, pat: string, rep: string, i: nat): string
    requires 0 < |pat| && i <= |s|
    decreases |s| - i
  {
    if i == |s| then []
    else if MatchAt(s, i, pat) then rep + Rewrite(s, pat, rep, i + |pat|)
    else [s[i]] + Rewrite(s, pat, rep, i + 1)
  }

  /** The number of replacements the scan from `i` makes. */
  function Replacements(s: string, pat: string, i: nat): nat
    requires 0 < |pat| && i <= |s|
    decreases |s| - i
  {
    if i == |s| then 0
    else if MatchAt(s, i, pat) then 1 + Replacements(s, pat, i + |pat|)
    else Replacements(s, pat, i + 1)
  }

  function Gsub(s: string, pat: string, rep: string): string
    requires 0 < |pat|
  {
    Rewrite(s, pat, rep, 0)
  }

  function Unescape(s: string): string
  {
    Gsub(Gsub(s, EscapedQuote, PlainQuote), DoubleEscapedQuote, EscapedQuote)
  }

  /** Where the pattern matches nowhere, the scan copies its input. */
  lemma {:induction false} NoMatchUnchanged(s: string, pat: string, rep: string, i: nat)
    requires 0 < |pat| && i <= |s|
    requires forall j :: i <= j < |s| ==> !MatchAt(s, j, pat)
    ensures Rewrite(s, pat, rep, i) == s[i..]
    ensures Replacements(s, pat, i) == 0
    decreases |s| - i
  {
    if i < |s| {
      NoMatchUnchanged(s, pat, rep, i + 1);
      assert s[i..] == [s[i]] + s[i + 1..];
    }
  }

  /** A pattern that starts with a backslash leaves a string without backslashes alone. */
  lemma GsubNoBackslash(s: string, pat: string, rep: string)
    requires 0 < |pat| && pat[0] == Backslash && NoBackslash(s)
    ensures Gsub(s, pat, rep) == s
  {
    NoMatchUnchanged(s, pat, rep, 0);
  }

  /** A string containing no backslash is returned unchanged. */
  lemma UnescapeNoBackslash(s: string)
    requires NoBackslash(s)
    ensures Unescape(s) == s
  {
    GsubNoBackslash(s, EscapedQuote, PlainQuote);
    GsubNoBackslash(s, DoubleEscapedQuote, EscapedQuote);
  }

  /** Each replacement shortens the string by exactly one character. */
  lemma {:induction false} RewriteLength(s: string, pat: string, rep: string, i: nat)
    requires 0 < |pat| && |rep| + 1 == |pat| && i <= |s|
    ensures |Rewrite(s, pat, rep, i)| + Replacements(s, pat, i) == |s| - i
    decreases |s| - i
  {
    if i < |s| {
      if MatchAt(s, i, pat) {
        RewriteLength(s, pat, rep, i + |pat|);
      } else {
        RewriteLength(s, pat, rep, i + 1);
      }
    }
  }

  /** The result is the input shortened by one character per replacement of either pass, so never longer. */
  lemma UnescapeLength(s: string)
    ensures var first := Gsub(s, EscapedQuote, PlainQuote);
      |Unescape(s)| + Replacements(s, EscapedQuote, 0) + Replacements(first, DoubleEscapedQuote, 0) == |s|
    ensures |Unescape(s)| <= |s|
  {
    var first := Gsub(s, EscapedQuote, PlainQuote);
    RewriteLength(s, EscapedQuote, PlainQuote, 0);
    RewriteLength(first, DoubleEscapedQuote, EscapedQuote, 0);
  }

  /** Escapes every double quote with a backslash, as a JSON encoder does for text without backslashes. */
  function EscapeQuotes(t: string): (r: string)
    ensures |r| >= |t|
  {
    if |t| == 0 then []
    else (if t[0] == Quote then EscapedQuote else [t[0]]) + EscapeQuotes(t[1..])
  }

  /**
   * The first pass undoes `EscapeQuotes` when it starts right after a
   * prefix that does not end in a backslash.
   */
  lemma {:induction false} FirstPassUndoesEscape(p: string, t: string)
    requires NoBackslash(t)
    requires |p| == 0 || p[|p| - 1] != Backslash
    ensures Rewrite(p + EscapeQuotes(t), EscapedQuote, PlainQuote, |p|) == t
    decreases |t|
  {
    var s := p + EscapeQuotes(t);
    if |t| > 0 {
      var head := if t[0] == Quote then EscapedQuote else [t[0]];
      var p' := p + head;
      assert s == p' + EscapeQuotes(t[1..]);
      assert NoBackslash(t[1..]) by {
        forall j | 0 <= j < |t[1..]| ensures t[1..][j] != Backslash {
          assert t[1..][j] == t[j + 1];
        }
      }
      assert p'[|p'| - 1] != Backslash;
      FirstPassUndoesEscape(p', t[1..]);
      if t[0] == Quote {
        assert s[|p|..|p| + 2] == EscapedQuote;
        assert |p| == 0 || s[|p| - 1] == p[|p| - 1];
        assert MatchAt(s, |p|, EscapedQuote);
      } else {
        assert s[|p|] == t[0];
        OccursAtFirst(s, |p|, EscapedQuote);
      }
      assert t == [t[0]] + t[1..];
    } else {
      assert s == p;
    }
  }

  /** Round trip: unescaping a quote-escaped text without backslashes gives the text back. */
  lemma UnescapeEscapeQuotes(t: string)
    requires NoBackslash(t)
    ensures Unescape(EscapeQuotes(t)) == t
  {
    FirstPassUndoesEscape([], t);
    assert [] + EscapeQuotes(t) == EscapeQuotes(t);
    GsubNoBackslash(t, DoubleEscapedQuote, EscapedQuote);
  }

  /** `a\"b` becomes `a"b`. */
  lemma UnescapeQuoteExample()
    ensures Unescape(['a', Backslash, Quote, 'b']) == ['a', Quote, 'b']
  {
    UnescapeEscapeQuotes(['a', Quote, 'b']);
    assert EscapeQuotes(['a', Quote, 'b']) == ['a', Backslash, Quote, 'b'] by {
      assert ['a', Quote, 'b'][1..] == [Quote, 'b'];
      assert [Quote, 'b'][1..] == ['b'];
      assert ['b'][1..] == [];
      assert EscapeQuotes(['b']) == ['b'];
      assert EscapeQuotes([Quote, 'b']) == [Backslash, Quote, 'b'];
    }
  }

  /**
   * `\\"`: the first pass leaves it alone, since the backslash before the
   * quote is itself preceded by a backslash; the second pass makes it `\"`.
   */
  lemma UnescapeDoubleExample()
    ensures Gsub(DoubleEscapedQuote, EscapedQuote, PlainQuote) == DoubleEscapedQuote
    ensures Unescape(DoubleEscapedQuote) == EscapedQuote
  {
    var s := DoubleEscapedQuote;
    assert !MatchAt(s, 0, EscapedQuote) by { assert s[0..2] != EscapedQuote by { assert s[0..2][1] == Backslash; } }
    assert !MatchAt(s, 1, EscapedQuote);
    assert !MatchAt(s, 2, EscapedQuote);
    NoMatchUnchanged(s, EscapedQuote, PlainQuote, 0);
    assert s[0..3] == DoubleEscapedQuote;
    assert MatchAt(s, 0, DoubleEscapedQuote);
    assert Rewrite(s, DoubleEscapedQuote, EscapedQuote, 3) == [];
    assert Gsub(s, DoubleEscapedQuote, EscapedQuote) == EscapedQuote + [];
  }
}
