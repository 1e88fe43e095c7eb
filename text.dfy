/**
 * The two string operations the answer builder relies on: lower-casing a
 * question and testing whether a keyword occurs in it.
 */
module Text {

  /** Lower-cases one character; only the ASCII letters 'A'..'Z' change. */
  function LowerChar(c: char): char
  {
    if 'A' <= c <= 'Z' then (c as int - 'A' as int + 'a' as int) as char else c
  }

  /** The lower-cased form of `s`, character by character. */
  function Lower(s: string): (r: string)
    ensures |r| == |s|
    ensures forall i :: 0 <= i < |r| ==> !('A' <= r[i] <= 'Z')
    ensures forall i :: 0 <= i < |r| && !('A' <= s[i] <= 'Z') ==> r[i] == s[i]
    ensures forall i :: 0 <= i < |r| && 'A' <= s[i] <= 'Z' ==>
      r[i] as int == s[i] as int + ('a' as int - 'A' as int)
  {
    seq(|s|, i requires 0 <= i < |s| => LowerChar(s[i]))
  }

  /** Lower-casing a lower-cased string changes nothing. */
  lemma LowerIdempotent(s: string)
    ensures Lower(Lower(s)) == Lower(s)
  {
    var l := Lower(s);
    assert forall i :: 0 <= i < |l| ==> Lower(l)[i] == l[i];
  }

  /** `pat` sits in `s` starting at position `i`. */
  ghost predicate OccursAt(pat: string, s: string, i: int)
  {
    0 <= i <= |s| - |pat| && s[i..i + |pat|] == pat
  }

  /** Specification of substring search: `pat` sits at some position of `s`. */
  ghost predicate Occurs(pat: string, s: string)
  {
    exists i :: OccursAt(pat, s, i)
  }

  /** Substring search, scanning `s` from the left (Python's `pat in s`). */
  function Contains(s: string, pat: string): bool
    decreases |s|
  {
    if |s| < |pat| then false
    else if s[..|pat|] == pat then true
    else Contains(s[1..], pat)
  }

  /** The scan finds `pat` exactly when `pat` occurs in `s`. */
  lemma {:induction false} ContainsIffOccurs(s: string, pat: string)
    ensures Contains(s, pat) <==> Occurs(pat, s)
  {
    if |s| < |pat| {
    } else if s[..|pat|] == pat {
      assert OccursAt(pat, s, 0);
    } else {
      ContainsIffOccurs(s[1..], pat);
      if Occurs(pat, s) {
        var i :| OccursAt(pat, s, i);
        assert s[1..][i - 1..i - 1 + |pat|] == s[i..i + |pat|];
        assert OccursAt(pat, s[1..], i - 1);
      }
      if Occurs(pat, s[1..]) {
        var i :| OccursAt(pat, s[1..], i);
        assert s[i + 1..i + 1 + |pat|] == s[1..][i..i + |pat|];
        assert OccursAt(pat, s, i + 1);
      }
    }
  }

  /** A pattern whose first character is nowhere in `s` does not occur in `s`. */
  lemma AbsentInitial(s: string, pat: string)
    requires |pat| > 0 && pat[0] !in s
    ensures !Occurs(pat, s)
  {
  }

  /** A pattern as long as `s` occurs in `s` only when it is `s` itself. */
  lemma OccursSameLength(s: string, pat: string)
    requires |pat| == |s|
    ensures Occurs(pat, s) <==> pat == s
  {
    if pat == s {
      assert OccursAt(pat, s, 0);
    }
  }

  /** Two characters are the same letter, or the same character, ignoring ASCII case. */
  predicate SameIgnoringCase(c: char, d: char)
  {
    c == d
    || ('A' <= c <= 'Z' && d as int == c as int + ('a' as int - 'A' as int))
    || ('A' <= d <= 'Z' && c as int == d as int + ('a' as int - 'A' as int))
  }

  /** `kw` sits in `s` at position `i`, ignoring ASCII case. */
  ghost predicate MatchesAt(kw: string, s: string, i: int)
  {
    0 <= i <= |s| - |kw| && forall j :: 0 <= j < |kw| ==> SameIgnoringCase(s[i + j], kw[j])
  }

  /** `kw` occurs somewhere in `s`, ignoring ASCII case. */
  ghost predicate OccursIgnoringCase(kw: string, s: string)
  {
    exists i :: MatchesAt(kw, s, i)
  }

  /**
   * For a keyword without upper-case letters, testing the lower-cased text
   * finds it exactly when it occurs in the text in any ASCII case.
   */
  lemma KeywordInLower(kw: string, s: string)
    requires forall j :: 0 <= j < |kw| ==> !('A' <= kw[j] <= 'Z')
    ensures Occurs(kw, Lower(s)) <==> OccursIgnoringCase(kw, s)
  {
    var l := Lower(s);
    if Occurs(kw, l) {
      var i :| OccursAt(kw, l, i);
      forall j | 0 <= j < |kw| ensures SameIgnoringCase(s[i + j], kw[j]) {
        assert kw[j] == l[i..i + |kw|][j] == l[i + j];
      }
      assert MatchesAt(kw, s, i);
    }
    if OccursIgnoringCase(kw, s) {
      var i :| MatchesAt(kw, s, i);
      forall j | 0 <= j < |kw| ensures l[i..i + |kw|][j] == kw[j] {
        assert SameIgnoringCase(s[i + j], kw[j]);
      }
      assert l[i..i + |kw|] == kw;
      assert OccursAt(kw, l, i);
    }
  }
}
