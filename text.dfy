/**
 * The Python string operations the ingestion and court-loading code relies on:
 * substring tests (`t in s`), `strip()`, `replace()`, `partition()` and `lower()`.
 */
module Text {
  import opened Wrappers

  predicate IsDigit(c: char) { '0' <= c <= '9' }

  /** Python's `\w`, restricted to ASCII: letters, digits and the underscore */
  predicate IsWordChar(c: char) {
    'a' <= c <= 'z' || 'A' <= c <= 'Z' || IsDigit(c) || c == '_'
  }

  /** The characters for which Python's `str.isspace()` holds */
  predicate IsSpace(c: char) {
    c == ' ' || '\t' <= c <= '\r' || '\U{1C}' <= c <= '\U{1F}'
    || c == '\U{85}' || c == '\U{A0}' || c == '\U{1680}' || '\U{2000}' <= c <= '\U{200A}'
    || c == '\U{2028}' || c == '\U{2029}' || c == '\U{202F}' || c == '\U{205F}' || c == '\U{3000}'
  }

  predicate AllSpace(s: string) {
    forall j :: 0 <= j < |s| ==> IsSpace(s[j])
  }

  /** Neither starts nor ends with whitespace */
  predicate IsTrimmed(s: string) {
    s == [] || (!IsSpace(s[0]) && !IsSpace(s[|s| - 1]))
  }

  predicate StartsWith(s: string, t: string) {
    |t| <= |s| && s[..|t|] == t
  }

  predicate EndsWith(s: string, t: string) {
    |t| <= |s| && s[|s| - |t|..] == t
  }

  /** Python's `t in s` */
  predicate Contains(s: string, t: string)
    decreases |s|
  {
    StartsWith(s, t) || (|s| > 0 && Contains(s[1..], t))
  }

  /** `t` occurs in `s` at index `i` */
  predicate LiteralAt(s: string, t: string, i: nat) {
    i + |t| <= |s| && s[i..i + |t|] == t
  }

  lemma {:induction false} ContainsAt(s: string, t: string, i: nat)
    requires LiteralAt(s, t, i)
    ensures Contains(s, t)
    decreases i
  {
    if i == 0 {
      assert s[..|t|] == s[0..0 + |t|];
    } else {
      assert s[1..][i - 1..i - 1 + |t|] == s[i..i + |t|];
      ContainsAt(s[1..], t, i - 1);
    }
  }

  lemma {:induction false} ContainsWitness(s: string, t: string) returns (i: nat)
    requires Contains(s, t)
    ensures LiteralAt(s, t, i)
    decreases |s|
  {
    if StartsWith(s, t) {
      i := 0;
      assert s[0..0 + |t|] == s[..|t|];
    } else {
      var j := ContainsWitness(s[1..], t);
      assert s[1..][j..j + |t|] == s[j + 1..j + 1 + |t|];
      i := j + 1;
    }
  }

  /** An occurrence of `t` begins with `t[0]`, so a string without that character cannot contain it */
  lemma ContainsHead(s: string, t: string)
    requires t != [] && Contains(s, t)
    ensures t[0] in s
  {
    var i := ContainsWitness(s, t);
    assert s[i] == s[i..i + |t|][0];
  }

  /** An occurrence in `a + b` cannot begin inside `a` when `a` lacks the first character of `t` */
  lemma {:induction false} ContainsAfter(a: string, b: string, t: string)
    requires t != [] && t[0] !in a && Contains(a + b, t)
    ensures Contains(b, t)
    decreases |a|
  {
    if a == [] {
      assert a + b == b;
    } else {
      assert (a + b)[0] == a[0];
      assert !StartsWith(a + b, t);
      assert (a + b)[1..] == a[1..] + b;
      ContainsAfter(a[1..], b, t);
    }
  }

  /** `t` occurs in any string built around it */
  lemma ContainsMiddle(a: string, t: string, b: string)
    ensures Contains(a + t + b, t)
  {
    assert (a + t + b)[|a|..|a| + |t|] == t;
    ContainsAt(a + t + b, t, |a|);
  }

  /** The length of the whitespace run `s` starts with */
  function LeadingSpace(s: string): (k: nat)
    ensures k <= |s| && AllSpace(s[..k])
    ensures k == |s| || !IsSpace(s[k])
    decreases |s|
  {
    if |s| > 0 && IsSpace(s[0]) then
      var k := LeadingSpace(s[1..]);
      assert s[..k + 1] == [s[0]] + s[1..][..k];
      k + 1
    else 0
  }

  /** Where the whitespace run that ends `s` begins, looking no further left than `k` */
  function TrailingSpace(s: string, k: nat): (e: nat)
    requires k <= |s|
    ensures k <= e <= |s| && AllSpace(s[e..])
    ensures e == k || !IsSpace(s[e - 1])
    decreases |s|
  {
    if |s| > k && IsSpace(s[|s| - 1]) then
      var e := TrailingSpace(s[..|s| - 1], k);
      assert s[e..] == s[..|s| - 1][e..] + [s[|s| - 1]];
      e
    else |s|
  }

  /** `r` is `s` with the whitespace run `s[..k]` before it and a whitespace run after it */
  predicate PaddedBy(s: string, k: nat, r: string) {
    k + |r| <= |s| && s[k..k + |r|] == r && AllSpace(s[..k]) && AllSpace(s[k + |r|..])
  }

  /** Python's `s.strip()` */
  function Strip(s: string): (r: string)
    ensures IsTrimmed(r)
    ensures PaddedBy(s, LeadingSpace(s), r)
  {
    var k := LeadingSpace(s);
    var e := TrailingSpace(s, k);
    assert e == k || !IsSpace(s[k]);
    s[k..e]
  }

  lemma StripTrimmed(s: string)
    requires IsTrimmed(s)
    ensures Strip(s) == s
  {
  }

  /**
   * Python's `s.replace(pat, sub)` for a non-empty `pat`: every non-overlapping
   * occurrence, found left to right, is replaced.
   */
  function Replace(s: string, pat: string, sub: string): (r: string)
    requires pat != []
    ensures sub == [] ==> |r| <= |s|
    ensures |pat| == 1 && sub == [] ==> pat[0] !in r
    decreases |s|
  {
    if |s| < |pat| then s
    else if s[..|pat|] == pat then sub + Replace(s[|pat|..], pat, sub)
    else [s[0]] + Replace(s[1..], pat, sub)
  }

  /** A string without the pattern comes back unchanged */
  lemma {:induction false} ReplaceAbsent(s: string, pat: string, sub: string)
    requires pat != [] && !Contains(s, pat)
    ensures Replace(s, pat, sub) == s
    decreases |s|
  {
    if |pat| <= |s| {
      assert !StartsWith(s, pat);
      ReplaceAbsent(s[1..], pat, sub);
    }
  }

  /** A string that starts with the pattern and has no other occurrence of it has just that prefix replaced */
  lemma ReplaceLeading(pat: string, rest: string, sub: string)
    requires pat != [] && !Contains(rest, pat)
    ensures Replace(pat + rest, pat, sub) == sub + rest
  {
    assert (pat + rest)[..|pat|] == pat;
    ReplaceHere(pat + rest, pat, sub);
    assert (pat + rest)[|pat|..] == rest;
    ReplaceAbsent(rest, pat, sub);
  }

  /** `Replace` works left to right: the first occurrence is replaced, then the rest after it */
  lemma {:induction false} ReplaceAtFirst(s: string, pat: string, sub: string, i: nat)
    requires pat != [] && LiteralAt(s, pat, i)
    requires forall j: nat :: j < i ==> !LiteralAt(s, pat, j)
    ensures Replace(s, pat, sub) == s[..i] + sub + Replace(s[i + |pat|..], pat, sub)
    decreases i
  {
    if i == 0 {
      assert s[..|pat|] == s[0..0 + |pat|];
      ReplaceHere(s, pat, sub);
    } else {
      var t := s[1..];
      assert s[..|pat|] != pat by {
        assert !LiteralAt(s, pat, 0);
        assert s[0..0 + |pat|] == s[..|pat|];
      }
      ReplaceSkip(s, pat, sub);
      ShiftNoOccurrence(s, pat, i);
      assert t[i - 1..i - 1 + |pat|] == s[i..i + |pat|];
      ReplaceAtFirst(t, pat, sub, i - 1);
      assert t[i - 1 + |pat|..] == s[i + |pat|..];
      PrefixRegroup(s, i, sub, Replace(t, pat, sub), Replace(s[i + |pat|..], pat, sub), Replace(s, pat, sub));
    }
  }

  lemma PrefixRegroup(s: string, i: nat, sub: string, rt: string, rest: string, rs: string)
    requires 0 < i <= |s|
    requires rs == [s[0]] + rt && rt == s[1..][..i - 1] + sub + rest
    ensures rs == s[..i] + sub + rest
  {
    assert [s[0]] + s[1..][..i - 1] == s[..i];
    Regroup([s[0]], s[1..][..i - 1], sub, rest);
  }

  lemma ReplaceHere(s: string, pat: string, sub: string)
    requires pat != [] && |pat| <= |s| && s[..|pat|] == pat
    ensures Replace(s, pat, sub) == sub + Replace(s[|pat|..], pat, sub)
  {
  }

  lemma ReplaceSkip(s: string, pat: string, sub: string)
    requires pat != [] && |pat| <= |s| && s[..|pat|] != pat
    ensures Replace(s, pat, sub) == [s[0]] + Replace(s[1..], pat, sub)
  {
  }

  lemma ShiftNoOccurrence(s: string, pat: string, i: nat)
    requires 0 < i <= |s| && forall j: nat :: j < i ==> !LiteralAt(s, pat, j)
    ensures forall j: nat :: j < i - 1 ==> !LiteralAt(s[1..], pat, j)
  {
    forall j: nat | j < i - 1 ensures !LiteralAt(s[1..], pat, j) {
      assert !LiteralAt(s, pat, j + 1);
      if j + |pat| <= |s| - 1 {
        assert s[1..][j..j + |pat|] == s[j + 1..j + 1 + |pat|];
      }
    }
  }

  lemma Regroup(a: string, b: string, c: string, d: string)
    ensures a + (b + c + d) == (a + b) + c + d
  {
  }

  /** Index of the first `c` in `s` */
  function IndexOf(s: string, c: char): (r: Option<nat>)
    ensures r.Some? ==> r.value < |s| && s[r.value] == c && c !in s[..r.value]
    ensures r.None? ==> c !in s
  {
    if s == [] then None
    else if s[0] == c then Some(0)
    else
      match IndexOf(s[1..], c)
      case None => None
      case Some(i) =>
        assert s[..i + 1] == [s[0]] + s[1..][..i];
        Some(i + 1)
  }

  /** Python's `s.partition(c)` for a one-character separator: (head, separator, tail) */
  function Partition(s: string, c: char): (r: (string, string, string))
    ensures c !in r.0
    ensures c in s ==> r.1 == [c] && s == r.0 + r.1 + r.2
    ensures c !in s ==> r == (s, "", "")
  {
    match IndexOf(s, c)
    case None => (s, "", "")
    case Some(i) =>
      assert s == s[..i] + [c] + s[i + 1..];
      (s[..i], [c], s[i + 1..])
  }

  function LowerChar(c: char): char {
    if 'A' <= c <= 'Z' then (c as int + 32) as char else c
  }

  /** Python's `s.lower()` on ASCII letters; other characters are kept */
  function Lower(s: string): (r: string)
    ensures |r| == |s|
    ensures forall i :: 0 <= i < |s| ==> r[i] == LowerChar(s[i])
  {
    seq(|s|, i requires 0 <= i < |s| => LowerChar(s[i]))
  }

  /** The first newline at or after `p`, or `|s|`: where a regex `.` run starting at `p` has to stop */
  function LineEnd(s: string, p: nat): (e: nat)
    requires p <= |s|
    ensures p <= e <= |s|
    ensures forall j :: p <= j < e ==> s[j] != '\n'
    ensures e < |s| ==> s[e] == '\n'
    decreases |s| - p
  {
    if p == |s| || s[p] == '\n' then p else LineEnd(s, p + 1)
  }
}
