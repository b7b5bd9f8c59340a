/**
 The text operations the error model is built from: removing every newline
 from a message (the `strings.Replace(err, "\n", "", -1)` call in `NewError`)
 and a reference definition of Go's replace-all against which that removal is
 checked.
 */
module Text {

  /** The one character `NewError` strips. */
  const Newline: char := '\n'

  /** A message that fits on one line: it holds no newline character. */
  predicate SingleLine(s: string) {
    forall i :: 0 <= i < |s| ==> s[i] != Newline
  }

  /**
   `a` can be obtained from `b` by deleting characters, without reordering.
   Matching the first character of `a` as early as possible is complete.
   */
  predicate IsSubsequence(a: string, b: string)
    decreases |b|
  {
    if |a| == 0 then true
    else if |b| == 0 then false
    else if a[0] == b[0] then IsSubsequence(a[1..], b[1..])
    else IsSubsequence(a, b[1..])
  }

  /**
   Removes every newline from `s`. The result is single-line, keeps the other
   characters in their order and with their multiplicities, and is shorter
   than `s` by exactly the number of newlines `s` held.
   */
  function StripNewlines(s: string): (r: string)
    ensures SingleLine(r)
    ensures IsSubsequence(r, s)
    ensures forall c :: c != Newline ==> multiset(r)[c] == multiset(s)[c]
    ensures |r| + multiset(s)[Newline] == |s|
    ensures SingleLine(s) ==> r == s
    decreases |s|
  {
    if |s| == 0 then []
    else
      assert s == [s[0]] + s[1..];
      if s[0] == Newline then StripNewlines(s[1..])
      else
        var tail := StripNewlines(s[1..]);
        assert ([s[0]] + tail)[1..] == tail;
        [s[0]] + tail
  }

  /** A subsequence never holds more copies of a character than its source. */
  lemma {:induction false} SubsequenceMultiset(a: string, b: string)
    requires IsSubsequence(a, b)
    ensures multiset(a) <= multiset(b)
    decreases |b|
  {
    if |a| == 0 {
    } else {
      assert b == [b[0]] + b[1..];
      if a[0] == b[0] {
        SubsequenceMultiset(a[1..], b[1..]);
        assert a == [a[0]] + a[1..];
      } else {
        SubsequenceMultiset(a, b[1..]);
      }
    }
  }

  /**
   The filter is characterised by its contract: any single-line subsequence
   of `s` that keeps every non-newline character of `s` as often as `s` has
   it is exactly `StripNewlines(s)`.
   */
  lemma {:induction false} StripNewlinesUnique(s: string, r: string)
    requires SingleLine(r)
    requires IsSubsequence(r, s)
    requires forall c :: c != Newline ==> multiset(r)[c] == multiset(s)[c]
    ensures r == StripNewlines(s)
    decreases |s|
  {
    if |s| == 0 {
    } else if |r| == 0 {
      forall i | 0 <= i < |s|
        ensures s[i] == Newline
      {
        assert s[i] in multiset(s);
      }
      StripEmpty(s);
    } else {
      assert s == [s[0]] + s[1..];
      assert r == [r[0]] + r[1..];
      if r[0] == s[0] {
        assert r[0] != Newline;
        forall c | c != Newline
          ensures multiset(r[1..])[c] == multiset(s[1..])[c]
        {
          assert multiset(r)[c] == multiset([r[0]])[c] + multiset(r[1..])[c];
          assert multiset(s)[c] == multiset([s[0]])[c] + multiset(s[1..])[c];
        }
        StripNewlinesUnique(s[1..], r[1..]);
      } else {
        SubsequenceMultiset(r, s[1..]);
        // s[0] is dropped, so it occurs in r less often than in s
        assert multiset(s)[s[0]] == multiset(s[1..])[s[0]] + 1;
        assert multiset(r)[s[0]] < multiset(s)[s[0]];
        assert s[0] == Newline;
        forall c | c != Newline
          ensures multiset(r)[c] == multiset(s[1..])[c]
        {
          assert multiset(s)[c] == multiset([s[0]])[c] + multiset(s[1..])[c];
        }
        StripNewlinesUnique(s[1..], r);
      }
    }
  }

  /** A string made only of newlines strips to nothing. */
  lemma {:induction false} StripEmpty(s: string)
    requires forall i :: 0 <= i < |s| ==> s[i] == Newline
    ensures StripNewlines(s) == []
    decreases |s|
  {
    if |s| > 0 {
      StripEmpty(s[1..]);
    }
  }

  /** Stripping distributes over concatenation. */
  lemma {:induction false} StripNewlinesConcat(a: string, b: string)
    ensures StripNewlines(a + b) == StripNewlines(a) + StripNewlines(b)
    decreases |a|
  {
    if |a| == 0 {
      assert a + b == b;
    } else {
      assert (a + b)[1..] == a[1..] + b;
      StripNewlinesConcat(a[1..], b);
    }
  }

  /** Stripping twice is the same as stripping once. */
  lemma StripNewlinesIdempotent(s: string)
    ensures StripNewlines(StripNewlines(s)) == StripNewlines(s)
  {
  }

  /**
   Go's `strings.Replace(s, pat, rep, -1)` for a non-empty pattern: every
   non-overlapping occurrence of `pat`, scanned from the left, is replaced by
   `rep`. A reference definition independent of `StripNewlines`.
   */
  function ReplaceAll(s: string, pat: string, rep: string): string
    requires |pat| > 0
    decreases |s|
  {
    if |s| < |pat| then s
    else if s[..|pat|] == pat then rep + ReplaceAll(s[|pat|..], pat, rep)
    else [s[0]] + ReplaceAll(s[1..], pat, rep)
  }

  /** Replacing every "\n" with "" is exactly the newline filter. */
  lemma {:induction false} ReplaceNewlineIsStrip(s: string)
    ensures ReplaceAll(s, [Newline], "") == StripNewlines(s)
    decreases |s|
  {
    if |s| > 0 {
      assert s[1..] == s[|[Newline]|..];
      assert s[..1] == [Newline] <==> s[0] == Newline;
      ReplaceNewlineIsStrip(s[1..]);
    }
  }
}
