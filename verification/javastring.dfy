/** The two java.lang.String operations the reply post-processor relies on:
    `trim()` and `replaceAll(p, "")` with a pattern that matches one literal
    text. */
module JavaString {

  /** `trim()` drops every code unit at or below U+0020 at either end. */
  predicate IsTrimmable(c: char) {
    c <= ' '
  }

  predicate IsPrefix(p: string, s: string) {
    |p| <= |s| && s[..|p|] == p
  }

  predicate EndsWith(s: string, suffix: string) {
    |suffix| <= |s| && s[|s| - |suffix|..] == suffix
  }

  /** `p` occurs somewhere in `s`. */
  predicate Contains(s: string, p: string)
    decreases |s|
  {
    IsPrefix(p, s) || (s != [] && Contains(s[1..], p))
  }

  /** Leading trimmable characters removed: the result is the longest suffix
      of `s` that starts with a non-trimmable character (or is empty), and
      everything dropped was trimmable. */
  function TrimStart(s: string): (r: string)
    ensures |r| <= |s| && r == s[|s| - |r|..]
    ensures r == [] || !IsTrimmable(r[0])
    ensures forall i :: 0 <= i < |s| - |r| ==> IsTrimmable(s[i])
    decreases |s|
  {
    if s != [] && IsTrimmable(s[0]) then TrimStart(s[1..]) else s
  }

  /** Trailing trimmable characters removed: the longest prefix of `s` that
      ends with a non-trimmable character (or is empty). */
  function TrimEnd(s: string): (r: string)
    ensures |r| <= |s| && r == s[..|r|]
    ensures r == [] || !IsTrimmable(r[|r| - 1])
    ensures forall i :: |r| <= i < |s| ==> IsTrimmable(s[i])
    decreases |s|
  {
    if s != [] && IsTrimmable(s[|s| - 1]) then TrimEnd(s[..|s| - 1]) else s
  }

  /** `r` is `s[k..k + |r|]` and every character of `s` outside it is trimmable. */
  predicate SliceWithTrimmableRest(s: string, r: string, k: int) {
    && 0 <= k <= |s| - |r|
    && r == s[k..k + |r|]
    && (forall i :: 0 <= i < k ==> IsTrimmable(s[i]))
    && (forall i :: k + |r| <= i < |s| ==> IsTrimmable(s[i]))
  }

  /** `s.trim()`: the contiguous middle of `s` that starts and ends with a
      non-trimmable character, with everything outside it trimmable. */
  function Trim(s: string): (r: string)
    ensures |r| <= |s|
    ensures r == [] || (!IsTrimmable(r[0]) && !IsTrimmable(r[|r| - 1]))
    ensures exists k :: SliceWithTrimmableRest(s, r, k)
  {
    var t := TrimStart(s);
    var r := TrimEnd(t);
    var k := |s| - |t|;
    assert r != [] ==> r[0] == t[0];
    assert r == s[k..k + |r|];
    assert forall i :: k + |r| <= i < |s| ==> s[i] == t[i - k];
    assert SliceWithTrimmableRest(s, r, k);
    r
  }

  /** `s.replaceAll(p, "")` for a pattern matching exactly the literal `p`:
      the regex engine scans left to right, deletes each match and resumes
      after it, so matches never overlap and text formed by a deletion is not
      rescanned. */
  function RemoveAll(s: string, p: string): (r: string)
    requires p != []
    ensures |r| <= |s|
    decreases |s|
  {
    if s == [] then []
    else if IsPrefix(p, s) then RemoveAll(s[|p|..], p)
    else [s[0]] + RemoveAll(s[1..], p)
  }

  // ----- trim -----

  /** A string with no trimmable character at either end is its own trim. */
  lemma TrimClean(s: string)
    requires s == [] || (!IsTrimmable(s[0]) && !IsTrimmable(s[|s| - 1]))
    ensures Trim(s) == s
  {
  }

  /** Trimming is idempotent. */
  lemma TrimIdempotent(s: string)
    ensures Trim(Trim(s)) == Trim(s)
  {
    TrimClean(Trim(s));
  }

  /** A string that starts with a non-trimmable character keeps it. */
  lemma TrimKeepsFirst(s: string)
    requires s != [] && !IsTrimmable(s[0])
    ensures Trim(s) != [] && Trim(s)[0] == s[0]
  {
    assert TrimStart(s) == s;
  }

  /** A trailing newline after clean text is what `trim()` removes. */
  lemma TrimDropsNewline(s: string)
    requires s != [] && !IsTrimmable(s[0]) && !IsTrimmable(s[|s| - 1])
    ensures Trim(s + "\n") == s
  {
    var t := s + "\n";
    assert TrimStart(t) == t;
    assert t[..|t| - 1] == s;
    assert TrimEnd(t) == TrimEnd(s);
  }

  // ----- literal removal -----

  lemma {:induction false} ContainsAt(s: string, p: string, i: nat)
    requires i <= |s| && IsPrefix(p, s[i..])
    ensures Contains(s, p)
    decreases i
  {
    if i > 0 {
      assert s[1..][i - 1..] == s[i..];
      ContainsAt(s[1..], p, i - 1);
    }
  }

  lemma {:induction false} ShortNotContains(s: string, p: string)
    requires |s| < |p|
    ensures !Contains(s, p)
    decreases |s|
  {
    if s != [] {
      ShortNotContains(s[1..], p);
    }
  }

  lemma {:induction false} NotContainsWithoutFirst(s: string, p: string)
    requires p != [] && p[0] !in s
    ensures !Contains(s, p)
    decreases |s|
  {
    if s != [] {
      assert s[0] != p[0];
      assert s[1..] <= s[1..] && forall c :: c in s[1..] ==> c in s;
      NotContainsWithoutFirst(s[1..], p);
    }
  }

  /** Text without an occurrence of the pattern is left as it is. */
  lemma {:induction false} RemoveAllAbsent(s: string, p: string)
    requires p != [] && !Contains(s, p)
    ensures RemoveAll(s, p) == s
    decreases |s|
  {
    if s != [] {
      RemoveAllAbsent(s[1..], p);
    }
  }

  /** A match at the very start is deleted and the scan resumes after it. */
  lemma RemoveAllLeading(p: string, s: string)
    requires p != []
    ensures RemoveAll(p + s, p) == RemoveAll(s, p)
  {
    assert (p + s)[..|p|] == p;
    assert (p + s)[|p|..] == s;
  }

  /** When no match starts inside `a`, `a` is kept and only `b` is scanned. */
  lemma {:induction false} RemoveAllKeepsPrefix(a: string, b: string, p: string)
    requires p != []
    requires forall i :: 0 <= i < |a| ==> !IsPrefix(p, (a + b)[i..])
    ensures RemoveAll(a + b, p) == a + RemoveAll(b, p)
    decreases |a|
  {
    if a == [] {
      assert a + b == b;
    } else {
      var s := a + b;
      assert s[0..] == s;
      assert !IsPrefix(p, s);
      assert s[1..] == a[1..] + b;
      forall i | 0 <= i < |a[1..]|
        ensures !IsPrefix(p, (a[1..] + b)[i..])
      {
        assert (a[1..] + b)[i..] == s[i + 1..];
      }
      RemoveAllKeepsPrefix(a[1..], b, p);
      assert [a[0]] + (a[1..] + RemoveAll(b, p)) == a + RemoveAll(b, p);
    }
  }
}
