/** The string operations the quiz core relies on, with Python's meaning:
    substring test (`pat in s`), `str.replace`, `str.strip()` and
    `str.lower()`. Whitespace and case are those of the ASCII range. */
module Text {

  // ---------------------------------------------------------------------
  // Substring test
  // ---------------------------------------------------------------------

  /** `pat` occurs in `s` starting at index `i`. */
  predicate OccursAt(s: string, pat: string, i: int) {
    0 <= i && i + |pat| <= |s| && s[i..i + |pat|] == pat
  }

  /** Python's `pat in s`, decided by scanning `s` from the left. */
  predicate Contains(s: string, pat: string)
    decreases |s|
  {
    if |s| < |pat| then false
    else if s[..|pat|] == pat then true
    else |s| > 0 && Contains(s[1..], pat)
  }

  /** The scan agrees with the window-based definition of a substring. */
  lemma {:induction false} ContainsIffOccurs(s: string, pat: string)
    ensures Contains(s, pat) <==> exists i :: OccursAt(s, pat, i)
    decreases |s|
  {
    if |s| < |pat| {
    } else if s[..|pat|] == pat {
      assert OccursAt(s, pat, 0);
    } else {
      assert |s| > 0;
      ContainsIffOccurs(s[1..], pat);
      if Contains(s[1..], pat) {
        var i :| OccursAt(s[1..], pat, i);
        assert s[i + 1..i + 1 + |pat|] == s[1..][i..i + |pat|];
        assert OccursAt(s, pat, i + 1);
      }
      if exists i :: OccursAt(s, pat, i) {
        var i :| OccursAt(s, pat, i);
        assert i != 0;
        assert s[1..][i - 1..i - 1 + |pat|] == s[i..i + |pat|];
        assert OccursAt(s[1..], pat, i - 1);
      }
    }
  }

  /** A string contains every prefix of itself. */
  lemma ContainsOwnPrefix(p: string, t: string)
    ensures Contains(p + t, p)
  {
  }

  /** Prepending a character never removes an occurrence. */
  lemma ContainsExtendLeft(c: char, t: string, pat: string)
    requires Contains(t, pat)
    ensures Contains([c] + t, pat)
  {
  }

  /** A string containing `p + q` also contains `p`. */
  lemma {:induction false} ContainsShorter(s: string, p: string, q: string)
    requires Contains(s, p + q)
    ensures Contains(s, p)
    decreases |s|
  {
    if s[..|p + q|] == p + q {
      assert s[..|p|] == (p + q)[..|p|] == p;
    } else {
      ContainsShorter(s[1..], p, q);
      assert s == [s[0]] + s[1..];
      ContainsExtendLeft(s[0], s[1..], p);
    }
  }

  // ---------------------------------------------------------------------
  // str.replace
  // ---------------------------------------------------------------------

  /** Python's `s.replace(pat, rep)` for a non-empty `pat`: occurrences are
      found left to right and do not overlap. */
  function ReplaceAll(s: string, pat: string, rep: string): string
    requires pat != []
    decreases |s|
  {
    if |s| < |pat| then s
    else if s[..|pat|] == pat then rep + ReplaceAll(s[|pat|..], pat, rep)
    else [s[0]] + ReplaceAll(s[1..], pat, rep)
  }

  /** Replacement is the leftmost-first rewriting that `str.replace`
      documents: everything before the first occurrence is kept, that
      occurrence becomes `rep`, and the rest is rewritten the same way. */
  lemma {:induction false} ReplaceAllLeftmost(s: string, pat: string, rep: string, i: nat)
    requires pat != []
    requires OccursAt(s, pat, i)
    requires forall j :: 0 <= j < i ==> !OccursAt(s, pat, j)
    ensures ReplaceAll(s, pat, rep) == s[..i] + rep + ReplaceAll(s[i + |pat|..], pat, rep)
    decreases i
  {
    if i == 0 {
      assert s[..|pat|] == pat;
      assert s[..0] == [];
    } else {
      var t := s[1..];
      ReplaceAllSkip(s, pat, rep);
      NoEarlierOccurrenceInTail(s, pat, i);
      assert OccursAt(t, pat, i - 1) by {
        assert t[i - 1..i - 1 + |pat|] == s[i..i + |pat|];
      }
      ReplaceAllLeftmost(t, pat, rep, i - 1);
      assert t[i - 1 + |pat|..] == s[i + |pat|..];
      var rest := ReplaceAll(s[i + |pat|..], pat, rep);
      assert ReplaceAll(t, pat, rep) == t[..i - 1] + rep + rest;
      ConsPrefix(s, i, rep, rest);
    }
  }

  /** Where `pat` does not start a string, replacement keeps its first
      character. */
  lemma ReplaceAllSkip(s: string, pat: string, rep: string)
    requires pat != [] && s != []
    requires !OccursAt(s, pat, 0)
    ensures ReplaceAll(s, pat, rep) == [s[0]] + ReplaceAll(s[1..], pat, rep)
  {
  }

  lemma ConsPrefix(s: string, i: nat, mid: string, rest: string)
    requires 0 < i <= |s|
    ensures [s[0]] + (s[1..][..i - 1] + mid + rest) == s[..i] + mid + rest
  {
    assert [s[0]] + s[1..][..i - 1] == s[..i];
  }

  lemma NoEarlierOccurrenceInTail(s: string, pat: string, i: nat)
    requires 0 < i <= |s|
    requires forall j :: 0 <= j < i ==> !OccursAt(s, pat, j)
    ensures forall j :: 0 <= j < i - 1 ==> !OccursAt(s[1..], pat, j)
  {
    forall j | 0 <= j < i - 1
      ensures !OccursAt(s[1..], pat, j)
    {
      assert !OccursAt(s, pat, j + 1);
      if j + |pat| <= |s| - 1 {
        assert s[1..][j..j + |pat|] == s[j + 1..j + 1 + |pat|];
      }
    }
  }

  /** With no occurrence of `pat`, replacement leaves the string alone. */
  lemma {:induction false} ReplaceAllAbsent(s: string, pat: string, rep: string)
    requires pat != []
    requires !Contains(s, pat)
    ensures ReplaceAll(s, pat, rep) == s
    decreases |s|
  {
    if |s| >= |pat| {
      ReplaceAllAbsent(s[1..], pat, rep);
      assert [s[0]] + s[1..] == s;
    }
  }

  /** If `pat` occurs, the replaced string contains `rep`. */
  lemma {:induction false} ReplaceAllIntroduces(s: string, pat: string, rep: string)
    requires pat != []
    requires Contains(s, pat)
    ensures Contains(ReplaceAll(s, pat, rep), rep)
    decreases |s|
  {
    if s[..|pat|] == pat {
      ContainsOwnPrefix(rep, ReplaceAll(s[|pat|..], pat, rep));
    } else {
      ReplaceAllIntroduces(s[1..], pat, rep);
      ContainsExtendLeft(s[0], ReplaceAll(s[1..], pat, rep), rep);
    }
  }

  // ---------------------------------------------------------------------
  // str.strip and str.lower
  // ---------------------------------------------------------------------

  /** The ASCII characters Python's `str.isspace` accepts:
      tab, line feed, vertical tab, form feed, carriage return,
      the four information separators and space. */
  predicate IsSpace(c: char) {
    (9 <= c as int <= 13) || (28 <= c as int <= 32)
  }

  predicate AllSpace(s: string) {
    forall i :: 0 <= i < |s| ==> IsSpace(s[i])
  }

  /** Drops leading whitespace. */
  function StripLeft(s: string): (r: string)
    ensures |r| <= |s| && r == s[|s| - |r|..]
    ensures AllSpace(s[..|s| - |r|])
    ensures r == [] || !IsSpace(r[0])
  {
    if s == [] then []
    else if IsSpace(s[0]) then StripLeft(s[1..])
    else s
  }

  /** Drops trailing whitespace. */
  function StripRight(s: string): (r: string)
    ensures |r| <= |s| && r == s[..|r|]
    ensures AllSpace(s[|r|..])
    ensures r == [] || !IsSpace(r[|r| - 1])
  {
    if s == [] then []
    else if IsSpace(s[|s| - 1]) then StripRight(s[..|s| - 1])
    else s
  }

  /** Python's `s.strip()`: `s` is the result with whitespace on both sides,
      and the result neither starts nor ends with whitespace. */
  function Strip(s: string): (r: string)
    ensures exists k :: 0 <= k && k + |r| <= |s| && s[k..k + |r|] == r
                        && AllSpace(s[..k]) && AllSpace(s[k + |r|..])
    ensures r == [] || (!IsSpace(r[0]) && !IsSpace(r[|r| - 1]))
  {
    var left := StripLeft(s);
    var r := StripRight(left);
    StripBounds(s, left, r);
    r
  }

  lemma StripBounds(s: string, left: string, r: string)
    requires |left| <= |s| && left == s[|s| - |left|..] && AllSpace(s[..|s| - |left|])
    requires |r| <= |left| && r == left[..|r|] && AllSpace(left[|r|..])
    ensures var k := |s| - |left|;
      && 0 <= k && k + |r| <= |s| && s[k..k + |r|] == r
      && AllSpace(s[..k]) && AllSpace(s[k + |r|..])
  {
  }

  function LowerChar(c: char): char {
    if 'A' <= c <= 'Z' then (c as int - 'A' as int + 'a' as int) as char else c
  }

  /** Python's `s.lower()` on the ASCII letters: every letter becomes lower
      case and nothing else changes. */
  function Lower(s: string): (r: string)
    ensures |r| == |s|
    ensures forall i :: 0 <= i < |s| ==> r[i] == LowerChar(s[i])
    ensures forall i :: 0 <= i < |r| ==> !('A' <= r[i] <= 'Z')
  {
    seq(|s|, i requires 0 <= i < |s| => LowerChar(s[i]))
  }

  /** Whitespace on the right of a string does not survive `StripRight`. */
  lemma {:induction false} StripRightPadded(t: string, b: string)
    requires AllSpace(b)
    ensures StripRight(t + b) == StripRight(t)
    decreases |b|
  {
    if b == [] {
      assert t + b == t;
    } else {
      var b' := b[..|b| - 1];
      assert (t + b)[..|t + b| - 1] == t + b';
      StripRightPadded(t, b');
    }
  }

  /** Whitespace appended on the right does not survive `Strip`. */
  lemma {:induction false} StripPaddedRight(s: string, b: string)
    requires AllSpace(b)
    ensures StripRight(StripLeft(s + b)) == StripRight(StripLeft(s))
    decreases |s|
  {
    if s == [] {
      assert s + b == b;
      StripLeftAllSpace(b);
    } else if IsSpace(s[0]) {
      assert (s + b)[1..] == s[1..] + b;
      StripPaddedRight(s[1..], b);
    } else {
      StripRightPadded(s, b);
    }
  }

  lemma {:induction false} StripLeftAllSpace(s: string)
    requires AllSpace(s)
    ensures StripLeft(s) == []
    decreases |s|
  {
  }

  /** Whitespace prepended on the left does not survive `StripLeft`. */
  lemma {:induction false} StripLeftPadded(a: string, t: string)
    requires AllSpace(a)
    ensures StripLeft(a + t) == StripLeft(t)
    decreases |a|
  {
    if a != [] {
      assert (a + t)[1..] == a[1..] + t;
      StripLeftPadded(a[1..], t);
    } else {
      assert a + t == t;
    }
  }

  /** Surrounding a string with whitespace does not change its `strip()`. */
  lemma StripPadded(a: string, s: string, b: string)
    requires AllSpace(a) && AllSpace(b)
    ensures Strip(a + s + b) == Strip(s)
  {
    assert a + s + b == a + (s + b);
    StripLeftPadded(a, s + b);
    assert StripLeft(a + s + b) == StripLeft(s + b);
    StripPaddedRight(s, b);
    assert StripRight(StripLeft(s + b)) == StripRight(StripLeft(s));
  }

  lemma LowerCharKeepsSpace(c: char)
    ensures IsSpace(LowerChar(c)) <==> IsSpace(c)
  {
  }

  /** Stripping and lowering commute on the left. */
  lemma {:induction false} LowerStripLeft(s: string)
    ensures Lower(StripLeft(s)) == StripLeft(Lower(s))
    decreases |s|
  {
    if s != [] {
      LowerCharKeepsSpace(s[0]);
      assert Lower(s)[1..] == Lower(s[1..]);
      LowerStripLeft(s[1..]);
    }
  }

  /** Stripping and lowering commute on the right. */
  lemma {:induction false} LowerStripRight(s: string)
    ensures Lower(StripRight(s)) == StripRight(Lower(s))
    decreases |s|
  {
    if s != [] {
      LowerCharKeepsSpace(s[|s| - 1]);
      assert Lower(s)[..|s| - 1] == Lower(s[..|s| - 1]);
      LowerStripRight(s[..|s| - 1]);
    }
  }

  /** `s.strip().lower() == s.lower().strip()`. */
  lemma LowerStrip(s: string)
    ensures Lower(Strip(s)) == Strip(Lower(s))
  {
    LowerStripRight(StripLeft(s));
    LowerStripLeft(s);
  }
}
