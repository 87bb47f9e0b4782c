/**
 * The regular-expression searches of the ingestion code. Each search is a left-to-right
 * scan, and its contract states what Python's `re.search` returns: the leftmost position
 * at which the pattern matches and, where a quantifier is greedy, the longest match there.
 * The declarative predicates (`RunMatch`, `LinkDigitsMatch`, `DotMatch`) say when a
 * pattern matches a given stretch of the string.
 */
module Patterns {
  import opened Wrappers
  import opened Text

  /** The stretch `s[start..end]` matched by a search */
  datatype Span = Span(start: nat, end: nat)

  predicate InString(s: string, sp: Span) {
    sp.start <= sp.end <= |s|
  }

  function Slice(s: string, sp: Span): string
    requires InString(s, sp)
  {
    s[sp.start..sp.end]
  }

  datatype CharClass = Word | Digit

  predicate InClass(c: char, cls: CharClass) {
    match cls
    case Word => IsWordChar(c)
    case Digit => IsDigit(c)
  }

  /** Length of the longest run of `cls` characters starting at `p` */
  function Run(s: string, p: nat, cls: CharClass): (n: nat)
    requires p <= |s|
    ensures p + n <= |s|
    ensures forall j :: p <= j < p + n ==> InClass(s[j], cls)
    ensures p + n == |s| || !InClass(s[p + n], cls)
    decreases |s| - p
  {
    if p < |s| && InClass(s[p], cls) then 1 + Run(s, p + 1, cls) else 0
  }

  lemma {:induction false} RunAtLeast(s: string, p: nat, k: nat, cls: CharClass)
    requires p + k <= |s|
    requires forall j :: p <= j < p + k ==> InClass(s[j], cls)
    ensures Run(s, p, cls) >= k
    decreases k
  {
    if k > 0 {
      RunAtLeast(s, p + 1, k - 1, cls);
    }
  }

  // ---------------------------------------------------------------------------
  // (?<=L)C{lo,hi}(?=R)
  // ---------------------------------------------------------------------------

  /** `(?<=L)C{lo,hi}(?=R)` matches `s` at `p`, covering the `k` characters `s[p..p+k]` */
  predicate RunMatch(s: string, L: string, cls: CharClass, lo: nat, hi: nat, R: string, p: nat, k: nat) {
    && |L| <= p && p + k <= |s| && s[p - |L|..p] == L
    && lo <= k <= hi
    && (forall j :: p <= j < p + k ==> InClass(s[j], cls))
    && LiteralAt(s, R, p + k)
  }

  /** A lookahead that starts outside the class pins the match length to the whole run */
  lemma RunMatchIsRun(s: string, L: string, cls: CharClass, lo: nat, hi: nat, R: string, p: nat, k: nat)
    requires R != [] && !InClass(R[0], cls)
    requires RunMatch(s, L, cls, lo, hi, R, p, k)
    ensures k == Run(s, p, cls)
  {
    RunAtLeast(s, p, k, cls);
    assert s[p + k] == R[0];
  }

  /** The scan's test at `p`: the lookbehind holds and the whole run there fits the pattern */
  predicate RunHitAt(s: string, L: string, cls: CharClass, lo: nat, hi: nat, R: string, p: nat)
    requires p <= |s|
  {
    var n := Run(s, p, cls);
    |L| <= p && s[p - |L|..p] == L && lo <= n <= hi && LiteralAt(s, R, p + n)
  }

  lemma RunHitIff(s: string, L: string, cls: CharClass, lo: nat, hi: nat, R: string, p: nat)
    requires R != [] && !InClass(R[0], cls) && p <= |s|
    ensures RunHitAt(s, L, cls, lo, hi, R, p) ==> RunMatch(s, L, cls, lo, hi, R, p, Run(s, p, cls))
    ensures forall k: nat :: RunMatch(s, L, cls, lo, hi, R, p, k) ==> RunHitAt(s, L, cls, lo, hi, R, p) && k == Run(s, p, cls)
  {
    forall k: nat | RunMatch(s, L, cls, lo, hi, R, p, k)
      ensures RunHitAt(s, L, cls, lo, hi, R, p) && k == Run(s, p, cls)
    {
      RunMatchIsRun(s, L, cls, lo, hi, R, p, k);
    }
  }

  /** No match starts at a position the scan rejects */
  lemma NoRunMatchAt(s: string, L: string, cls: CharClass, lo: nat, hi: nat, R: string, p: nat)
    requires R != [] && !InClass(R[0], cls) && p <= |s|
    requires !RunHitAt(s, L, cls, lo, hi, R, p)
    ensures forall k: nat :: !RunMatch(s, L, cls, lo, hi, R, p, k)
  {
    RunHitIff(s, L, cls, lo, hi, R, p);
  }

  /** The scan of `re.search` for `(?<=L)C{lo,hi}(?=R)` from `from`: the first position passing `RunHitAt` */
  function SearchRun(s: string, L: string, cls: CharClass, lo: nat, hi: nat, R: string, from: nat): (r: Option<Span>)
    requires from <= |s|
    ensures r.Some? ==> from <= r.value.start <= |s| && r.value.end == r.value.start + Run(s, r.value.start, cls)
    ensures r.Some? ==> RunHitAt(s, L, cls, lo, hi, R, r.value.start)
    ensures r.Some? ==> forall p :: from <= p < r.value.start ==> !RunHitAt(s, L, cls, lo, hi, R, p)
    ensures r.None? ==> forall p :: from <= p <= |s| ==> !RunHitAt(s, L, cls, lo, hi, R, p)
    decreases |s| - from
  {
    if RunHitAt(s, L, cls, lo, hi, R, from) then Some(Span(from, from + Run(s, from, cls)))
    else if from == |s| then None
    else SearchRun(s, L, cls, lo, hi, R, from + 1)
  }

  /**
   * What `re.search` promises: the scan returns the leftmost position at which the pattern
   * matches, with the only length it can match there, and nothing when it matches nowhere.
   */
  lemma SearchRunFinds(s: string, L: string, cls: CharClass, lo: nat, hi: nat, R: string, from: nat)
    requires R != [] && !InClass(R[0], cls) && from <= |s|
    ensures var r := SearchRun(s, L, cls, lo, hi, R, from);
      && (r.Some? ==> InString(s, r.value) && from <= r.value.start)
      && (r.Some? ==> RunMatch(s, L, cls, lo, hi, R, r.value.start, r.value.end - r.value.start))
      && (r.Some? ==> forall k: nat :: RunMatch(s, L, cls, lo, hi, R, r.value.start, k) ==> k == r.value.end - r.value.start)
      && (r.Some? ==> forall p: nat, k: nat :: from <= p < r.value.start ==> !RunMatch(s, L, cls, lo, hi, R, p, k))
      && (r.None? ==> forall p: nat, k: nat :: from <= p ==> !RunMatch(s, L, cls, lo, hi, R, p, k))
  {
    var r := SearchRun(s, L, cls, lo, hi, R, from);
    if r.Some? {
      RunHitIff(s, L, cls, lo, hi, R, r.value.start);
      forall p: nat, k: nat | from <= p < r.value.start ensures !RunMatch(s, L, cls, lo, hi, R, p, k) {
        NoRunMatchAt(s, L, cls, lo, hi, R, p);
      }
    } else {
      forall p: nat, k: nat | from <= p ensures !RunMatch(s, L, cls, lo, hi, R, p, k) {
        if p <= |s| {
          NoRunMatchAt(s, L, cls, lo, hi, R, p);
        }
      }
    }
  }

  // ---------------------------------------------------------------------------
  // [0-9]+(?=(&|$))
  // ---------------------------------------------------------------------------

  /** Python's `$` without MULTILINE: the end of the string, or just before a final newline */
  predicate EndAnchor(s: string, i: nat) {
    i == |s| || (i + 1 == |s| && s[i] == '\n')
  }

  /** `[0-9]+(?=(&|$))` matches `s` at `p`, covering the `k` digits `s[p..p+k]` */
  predicate LinkDigitsMatch(s: string, p: nat, k: nat) {
    && 1 <= k && p + k <= |s|
    && (forall j :: p <= j < p + k ==> IsDigit(s[j]))
    && (EndAnchor(s, p + k) || s[p + k] == '&')
  }

  lemma LinkDigitsMatchIsRun(s: string, p: nat, k: nat)
    requires LinkDigitsMatch(s, p, k)
    ensures k == Run(s, p, Digit)
  {
    RunAtLeast(s, p, k, Digit);
  }

  function SearchLinkDigits(s: string, from: nat): (r: Option<Span>)
    requires from <= |s|
    ensures r.Some? ==> InString(s, r.value) && from <= r.value.start
    ensures r.Some? ==> LinkDigitsMatch(s, r.value.start, r.value.end - r.value.start)
    ensures r.Some? ==> forall k: nat :: LinkDigitsMatch(s, r.value.start, k) ==> k == r.value.end - r.value.start
    ensures r.Some? ==> forall p: nat, k: nat :: from <= p < r.value.start ==> !LinkDigitsMatch(s, p, k)
    ensures r.None? ==> forall p: nat, k: nat :: from <= p ==> !LinkDigitsMatch(s, p, k)
    decreases |s| - from
  {
    var n := Run(s, from, Digit);
    if 1 <= n && (EndAnchor(s, from + n) || s[from + n] == '&') then
      assert forall k: nat :: LinkDigitsMatch(s, from, k) ==> k == n by {
        forall k: nat | LinkDigitsMatch(s, from, k) ensures k == n {
          LinkDigitsMatchIsRun(s, from, k);
        }
      }
      Some(Span(from, from + n))
    else
      assert forall k: nat :: !LinkDigitsMatch(s, from, k) by {
        forall k: nat | LinkDigitsMatch(s, from, k) ensures false {
          LinkDigitsMatchIsRun(s, from, k);
        }
      }
      if from == |s| then None else SearchLinkDigits(s, from + 1)
  }

  /**
   * `re.search('[0-9]+(?=(&|$))', s)`: the leftmost match, which is always a whole
   * maximal run of digits (the character before it is not a digit).
   */
  function LinkDigits(s: string): (r: Option<Span>)
    ensures r.Some? ==> InString(s, r.value) && LinkDigitsMatch(s, r.value.start, r.value.end - r.value.start)
    ensures r.Some? ==> forall p: nat, k: nat :: p < r.value.start ==> !LinkDigitsMatch(s, p, k)
    ensures r.Some? ==> r.value.start == 0 || !IsDigit(s[r.value.start - 1])
    ensures r.None? ==> forall p: nat, k: nat :: !LinkDigitsMatch(s, p, k)
  {
    var r := SearchLinkDigits(s, 0);
    assert r.Some? && r.value.start > 0 && IsDigit(s[r.value.start - 1])
      ==> LinkDigitsMatch(s, r.value.start - 1, r.value.end - r.value.start + 1);
    r
  }

  // ---------------------------------------------------------------------------
  // (?<=L).+(?=R)
  // ---------------------------------------------------------------------------

  /** `(?<=L).+(?=R)` matches `s[p..e]` (`.` is any character but a newline) */
  predicate DotMatch(s: string, L: string, R: string, p: nat, e: nat) {
    && |L| <= p < e <= |s| && s[p - |L|..p] == L
    && (forall j :: p <= j < e ==> s[j] != '\n')
    && LiteralAt(s, R, e)
  }

  /** The largest `e` with `p < e <= top` at which `R` occurs */
  function LastLiteral(s: string, R: string, p: nat, top: nat): (r: Option<nat>)
    requires top <= |s|
    ensures r.Some? ==> p < r.value <= top && LiteralAt(s, R, r.value)
    ensures r.Some? ==> forall e: nat :: r.value < e <= top ==> !LiteralAt(s, R, e)
    ensures r.None? ==> forall e: nat :: p < e <= top ==> !LiteralAt(s, R, e)
    decreases top
  {
    if top <= p then None
    else if LiteralAt(s, R, top) then Some(top)
    else LastLiteral(s, R, p, top - 1)
  }

  lemma DotMatchWithinLine(s: string, L: string, R: string, p: nat, e: nat)
    requires p <= |s| && DotMatch(s, L, R, p, e)
    ensures e <= LineEnd(s, p)
  {
    // otherwise the newline at LineEnd(s, p) would lie inside the match
  }

  function SearchDot(s: string, L: string, R: string, from: nat): (r: Option<Span>)
    requires from <= |s|
    ensures r.Some? ==> InString(s, r.value) && from <= r.value.start
    ensures r.Some? ==> DotMatch(s, L, R, r.value.start, r.value.end)
    ensures r.Some? ==> forall e: nat :: r.value.end < e ==> !DotMatch(s, L, R, r.value.start, e)
    ensures r.Some? ==> forall p: nat, e: nat :: from <= p < r.value.start ==> !DotMatch(s, L, R, p, e)
    ensures r.None? ==> forall p: nat, e: nat :: from <= p ==> !DotMatch(s, L, R, p, e)
    decreases |s| - from
  {
    var found := if |L| <= from && s[from - |L|..from] == L then LastLiteral(s, R, from, LineEnd(s, from)) else None;
    assert forall e: nat :: DotMatch(s, L, R, from, e) ==> e <= LineEnd(s, from) by {
      forall e: nat | DotMatch(s, L, R, from, e) ensures e <= LineEnd(s, from) {
        DotMatchWithinLine(s, L, R, from, e);
      }
    }
    if found.Some? then
      Some(Span(from, found.value))
    else if from == |s| then None
    else SearchDot(s, L, R, from + 1)
  }
}
