/**
 * The two string built-ins the calculator leans on: `str.strip()` with no
 * argument and `str.split()` with no argument. Whitespace is the ASCII part of
 * Python's `str.isspace`: tab, line feed, vertical tab, form feed, carriage
 * return, the four information separators and space.
 */
module Text {

  predicate IsSpace(c: char) {
    (9 <= c as int <= 13) || (28 <= c as int <= 32)
  }

  predicate NoSpace(s: string) {
    forall i :: 0 <= i < |s| ==> !IsSpace(s[i])
  }

  predicate AllSpace(s: string) {
    forall i :: 0 <= i < |s| ==> IsSpace(s[i])
  }

  /** Number of whitespace characters at the start of `s`. */
  function LeadingSpace(s: string): (n: nat)
    ensures n <= |s|
    ensures forall i :: 0 <= i < n ==> IsSpace(s[i])
    ensures n == |s| || !IsSpace(s[n])
  {
    if s != [] && IsSpace(s[0]) then 1 + LeadingSpace(s[1..]) else 0
  }

  /** Number of whitespace characters at the end of `s`. */
  function TrailingSpace(s: string): (n: nat)
    ensures n <= |s|
    ensures forall i :: |s| - n <= i < |s| ==> IsSpace(s[i])
    ensures n == |s| || !IsSpace(s[|s| - 1 - n])
  {
    if s != [] && IsSpace(s[|s| - 1]) then 1 + TrailingSpace(s[..|s| - 1]) else 0
  }

  /**
   * Python's `s.strip()`: the slice of `s` that starts at its first and ends at
   * its last non-whitespace character; everything cut away is whitespace.
   */
  function Strip(s: string): (r: string)
    ensures |r| <= |s|
    ensures LeadingSpace(s) + |r| <= |s|
    ensures r == s[LeadingSpace(s)..LeadingSpace(s) + |r|]
    ensures forall i :: LeadingSpace(s) + |r| <= i < |s| ==> IsSpace(s[i])
    ensures r == [] || (!IsSpace(r[0]) && !IsSpace(r[|r| - 1]))
    ensures NoSpace(s) ==> r == s
  {
    var lead := LeadingSpace(s);
    if lead == |s| then []
    else
      var trail := TrailingSpace(s);
      assert !IsSpace(s[lead]);
      s[lead..|s| - trail]
  }

  /** Stripping removes exactly the whitespace around a text that starts and ends with non-whitespace. */
  lemma StripPadding(pre: string, x: string, post: string)
    requires AllSpace(pre) && AllSpace(post)
    requires x != [] && !IsSpace(x[0]) && !IsSpace(x[|x| - 1])
    ensures Strip(pre + x + post) == x
  {
    var s := pre + x + post;
    var r := Strip(s);
    assert s[|pre|] == x[0];
    assert LeadingSpace(s) == |pre|;
    assert s[|pre| + |x| - 1] == x[|x| - 1];
    assert r != [];
    assert |pre| + |r| == |pre| + |x|;
    assert s[|pre|..|pre| + |x|] == x;
  }

  /** Length of the whitespace-free token at the start of `s`. */
  function TokenEnd(s: string): (n: nat)
    ensures n <= |s|
    ensures forall i :: 0 <= i < n ==> !IsSpace(s[i])
    ensures n == |s| || IsSpace(s[n])
  {
    if s == [] || IsSpace(s[0]) then 0 else 1 + TokenEnd(s[1..])
  }

  /**
   * Python's `s.split()`: the maximal runs of non-whitespace characters, in
   * order; no token is empty and no token holds whitespace.
   */
  function Split(s: string): (r: seq<string>)
    ensures forall k :: 0 <= k < |r| ==> r[k] != [] && NoSpace(r[k])
    decreases |s|
  {
    if s == [] then []
    else if IsSpace(s[0]) then Split(s[1..])
    else
      var n := TokenEnd(s);
      [s[..n]] + Split(s[n..])
  }

  /** Tokens written out with one space between neighbours. */
  function Join(ts: seq<string>): string {
    if ts == [] then []
    else if |ts| == 1 then ts[0]
    else ts[0] + " " + Join(ts[1..])
  }

  /** Splitting undoes joining: tokens survive being written out with single spaces. */
  lemma {:induction false} SplitJoin(ts: seq<string>)
    requires forall k :: 0 <= k < |ts| ==> ts[k] != [] && NoSpace(ts[k])
    ensures Split(Join(ts)) == ts
  {
    if ts == [] {
    } else if |ts| == 1 {
      SplitToken(ts[0], []);
      assert ts[0] + [] == ts[0];
    } else {
      var rest := " " + Join(ts[1..]);
      assert Join(ts) == ts[0] + rest;
      SplitToken(ts[0], rest);
      assert Split(rest) == Split(Join(ts[1..])) by {
        assert rest[1..] == Join(ts[1..]);
      }
      SplitJoin(ts[1..]);
    }
  }

  /** A token followed by nothing or by whitespace splits off as one piece. */
  lemma SplitToken(t: string, rest: string)
    requires t != [] && NoSpace(t)
    requires rest == [] || IsSpace(rest[0])
    ensures Split(t + rest) == [t] + Split(rest)
  {
    var s := t + rest;
    TokenEndOf(t, rest);
    assert s[..|t|] == t && s[|t|..] == rest;
  }

  lemma {:induction false} TokenEndOf(t: string, rest: string)
    requires NoSpace(t)
    requires rest == [] || IsSpace(rest[0])
    ensures TokenEnd(t + rest) == |t|
  {
    if t != [] {
      assert (t + rest)[1..] == t[1..] + rest;
      TokenEndOf(t[1..], rest);
    }
  }

  /** Whitespace alone splits into no tokens. */
  lemma {:induction false} SplitAllSpace(s: string)
    requires AllSpace(s)
    ensures Split(s) == []
    decreases |s|
  {
    if s != [] {
      SplitAllSpace(s[1..]);
    }
  }

  /** Leading whitespace does not change the tokens. */
  lemma {:induction false} SplitDropLeading(s: string, m: nat)
    requires m <= |s|
    requires forall i :: 0 <= i < m ==> IsSpace(s[i])
    ensures Split(s[m..]) == Split(s)
    decreases m
  {
    if m > 0 {
      assert s[1..][m - 1..] == s[m..];
      SplitDropLeading(s[1..], m - 1);
    }
  }

  /** Trailing whitespace does not change the tokens. */
  lemma {:induction false} SplitDropTrailing(s: string, m: nat)
    requires m <= |s|
    requires forall i :: m <= i < |s| ==> IsSpace(s[i])
    ensures Split(s[..m]) == Split(s)
    decreases |s|
  {
    if s == [] {
    } else if IsSpace(s[0]) {
      if m == 0 {
        SplitAllSpace(s);
      } else {
        assert s[..m][1..] == s[1..][..m - 1];
        SplitDropTrailing(s[1..], m - 1);
      }
    } else {
      var n := TokenEnd(s);
      var p := s[..m];
      if m < |s| {
        assert IsSpace(s[m]);
      }
      var np := TokenEnd(p);
      assert np == n;
      assert p[..n] == s[..n];
      assert p[n..] == s[n..][..m - n];
      SplitDropTrailing(s[n..], m - n);
    }
  }

  /**
   * Any non-empty run of whitespace is one separator: the tokens on either
   * side of it are kept apart and nothing is added between them.
   */
  lemma {:induction false} SplitSeparator(a: string, w: string, b: string)
    requires w != [] && AllSpace(w)
    ensures Split(a + w + b) == Split(a) + Split(b)
    decreases |a|
  {
    var s := a + w + b;
    if a == [] {
      assert s == w + b && s[|w|..] == b;
      SplitDropLeading(s, |w|);
    } else if IsSpace(a[0]) {
      assert s[0] == a[0] && s[1..] == a[1..] + w + b;
      SplitSeparator(a[1..], w, b);
    } else {
      var n := TokenEnd(a);
      var rest := a[n..] + w + b;
      assert s == a[..n] + rest;
      assert rest[0] == (if n < |a| then a[n] else w[0]);
      SplitToken(a[..n], rest);
      assert a == a[..n] + a[n..];
      SplitToken(a[..n], a[n..]);
      SplitSeparator(a[n..], w, b);
    }
  }

  /** `s.strip().split()` is `s.split()`. */
  lemma SplitStrip(s: string)
    ensures Split(Strip(s)) == Split(s)
  {
    var lead := LeadingSpace(s);
    var r := Strip(s);
    var t := s[lead..];
    SplitDropLeading(s, lead);
    assert r == t[..|r|];
    SplitDropTrailing(t, |r|);
  }
}
