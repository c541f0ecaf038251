/** The string operations the mail parser applies to the text it extracts:
    literal regular-expression matches, Rust's `str::replace` and the regular
    expression `\?.*` that strips the query string from a link. */
module Text {

  /** `pat` occurs in `s` starting at position `i`. */
  predicate OccursAt(s: string, pat: string, i: nat)
  {
    i + |pat| <= |s| && s[i..i + |pat|] == pat
  }

  /** A regular expression made of literal characters only (`released`, `by`)
      matches `s` exactly when it occurs somewhere in `s`. */
  predicate Contains(s: string, pat: string)
  {
    exists i :: 0 <= i <= |s| - |pat| && OccursAt(s, pat, i)
  }

  /** Rust's `str::replace`: every non-overlapping occurrence of `pat`, found
      from left to right, is replaced by `rep`. Every pattern the source uses is
      non-empty. */
  function ReplaceAll(s: string, pat: string, rep: string): string
    requires |pat| > 0
    decreases |s|
  {
    if |s| < |pat| then s
    else if s[..|pat|] == pat then rep + ReplaceAll(s[|pat|..], pat, rep)
    else [s[0]] + ReplaceAll(s[1..], pat, rep)
  }

  /** Replacing never invents a character: each one comes from `s` or from `rep`. */
  lemma {:induction false} ReplaceAllKeepsChars(s: string, pat: string, rep: string)
    requires |pat| > 0
    ensures forall c :: c in ReplaceAll(s, pat, rep) ==> c in s || c in rep
    decreases |s|
  {
    if |s| < |pat| {
    } else if s[..|pat|] == pat {
      ReplaceAllKeepsChars(s[|pat|..], pat, rep);
      assert forall c :: c in s[|pat|..] ==> c in s;
    } else {
      ReplaceAllKeepsChars(s[1..], pat, rep);
      assert forall c :: c in s[1..] ==> c in s;
    }
  }

  /** Removing every occurrence of a one-character pattern leaves none of that
      character behind. */
  lemma {:induction false} RemoveCharGone(s: string, c: char)
    ensures c !in ReplaceAll(s, [c], "")
    decreases |s|
  {
    if |s| >= 1 {
      RemoveCharGone(s[1..], c);
      if s[..1] != [c] {
        assert s[0] != c;
      }
    }
  }

  /** A text in which the pattern does not occur is left unchanged. */
  lemma {:induction false} ReplaceAllAbsent(s: string, pat: string, rep: string)
    requires |pat| > 0
    requires !Contains(s, pat)
    ensures ReplaceAll(s, pat, rep) == s
    decreases |s|
  {
    if |s| >= |pat| {
      assert !OccursAt(s, pat, 0);
      assert s[..|pat|] != pat;
      forall i | 0 <= i <= |s[1..]| - |pat|
        ensures !OccursAt(s[1..], pat, i)
      {
        assert s[1..][i..i + |pat|] == s[i + 1..i + 1 + |pat|];
        assert !OccursAt(s, pat, i + 1);
      }
      ReplaceAllAbsent(s[1..], pat, rep);
      assert s == [s[0]] + s[1..];
    }
  }

  /** The first position at or after `from` that holds `c`, or `|s|` if there
      is none. */
  function IndexOfChar(s: string, c: char, from: nat): (r: nat)
    requires from <= |s|
    ensures from <= r <= |s|
    ensures r < |s| ==> s[r] == c
    ensures forall k :: from <= k < r ==> s[k] != c
    decreases |s| - from
  {
    if from == |s| then from
    else if s[from] == c then from
    else IndexOfChar(s, c, from + 1)
  }

  /** Replacing the first match of the regular expression `\?.*` by nothing:
      the leftmost match starts at the first '?' and, since `.` does not match
      a line break, runs up to the next '\n' or the end of the text; only that
      first match is removed. */
  function StripQuery(href: string): string
  {
    var q := IndexOfChar(href, '?', 0);
    if q == |href| then href else href[..q] + href[IndexOfChar(href, '\n', q)..]
  }

  /** A link without a query string is kept as it is. */
  lemma StripQueryWithoutQuery(href: string)
    requires '?' !in href
    ensures StripQuery(href) == href
  {
  }

  /** On a one-line link, the result is the link truncated just before its
      first '?': a prefix of the link that holds no '?', and either the whole
      link or followed in it by a '?'. */
  lemma StripQueryTruncates(href: string)
    requires '\n' !in href
    ensures StripQuery(href) == href[..|StripQuery(href)|]
    ensures '?' !in StripQuery(href)
    ensures |StripQuery(href)| < |href| ==> href[|StripQuery(href)|] == '?'
  {
    var q := IndexOfChar(href, '?', 0);
    if q < |href| {
      var n := IndexOfChar(href, '\n', q);
      assert n == |href|;
      assert StripQuery(href) == href[..q];
    }
  }

  /** Stripping the query string of a one-line link twice is the same as once. */
  lemma StripQueryIdempotent(href: string)
    requires '\n' !in href
    ensures StripQuery(StripQuery(href)) == StripQuery(href)
  {
    StripQueryTruncates(href);
    StripQueryWithoutQuery(StripQuery(href));
  }

  /** On any link holding a '?', the removed part starts at the first '?' and
      runs up to the next line break (which is kept) or the end of the link;
      everything after that line break is kept, query strings included. */
  lemma StripQueryStopsAtLineBreak(href: string, q: nat, n: nat)
    requires '?' in href
    requires q == IndexOfChar(href, '?', 0) && n == IndexOfChar(href, '\n', q)
    ensures q < n <= |href| && href[q] == '?'
    ensures forall k :: 0 <= k < q ==> href[k] != '?'
    ensures forall k :: q <= k < n ==> href[k] != '\n'
    ensures n < |href| ==> href[n] == '\n'
    ensures StripQuery(href) == href[..q] + href[n..]
  {
    var i :| 0 <= i < |href| && href[i] == '?';
    assert q <= i;
  }
}
