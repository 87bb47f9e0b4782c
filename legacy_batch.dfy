/**
 * `save_everything` of the legacy `trackcases_old` command. Cases are found by their
 * docket website and entries have no key of their own, so the tables are sequences in
 * the order the database returns them. The batch is deduplicated through a set, whose
 * order is not fixed: the order is an `Arranger`, any function that lists each distinct
 * tuple once. `LegacyFlush` states the whole call; `SaveEverything` is proved to do it.
 */
module LegacyBatch {
  import opened Wrappers
  import opened Courts
  import opened LegacyTrack

  /** A stored case of the legacy schema, with the `case_key` the legacy command writes */
  datatype LegacyCaseRow = LegacyCaseRow(
    court: nat, title: string, website: string, number: string, name: string,
    caseType: CaseType, isDateFiled: bool, caseKey: nat)

  /** A stored entry; `caseIndex` is the position of its case in the case table */
  datatype LegacyEntryRow = LegacyEntryRow(
    caseIndex: nat, description: string, number: Option<nat>, website: string, timeFiled: int)

  /** Every entry points at a stored case (the foreign key of the entry table) */
  predicate Attached(cases: seq<LegacyCaseRow>, entries: seq<LegacyEntryRow>) {
    forall i :: 0 <= i < |entries| ==> entries[i].caseIndex < |cases|
  }

  /** No two cases share a docket website */
  predicate UniqueSites(cases: seq<LegacyCaseRow>) {
    forall i, j :: 0 <= i < j < |cases| ==> cases[i].website != cases[j].website
  }

  function SitesOf(cases: seq<LegacyCaseRow>): set<string> {
    set c | c in cases :: c.website
  }

  function WebsitesOf(s: seq<LegacyCandidate>): set<string> {
    set x | x in s :: x.caseWebsite
  }

  /** No two tuples share a docket website */
  predicate DistinctSites(s: seq<LegacyCandidate>) {
    forall i, j :: 0 <= i < j < |s| ==> s[i].caseWebsite != s[j].caseWebsite
  }

  // ---------------------------------------------------------------------------
  // list(set(entries_to_save))
  // ---------------------------------------------------------------------------

  predicate NoRepeats(s: seq<LegacyCandidate>) {
    forall i, j :: 0 <= i < j < |s| ==> s[i] != s[j]
  }

  /** `list(set(batch))`: every distinct tuple of the batch exactly once, in some order */
  ghost predicate Arrangement(u: seq<LegacyCandidate>, batch: seq<LegacyCandidate>) {
    NoRepeats(u) && forall x :: x in u <==> x in batch
  }

  ghost predicate Arranges(arrange: seq<LegacyCandidate> -> seq<LegacyCandidate>) {
    forall batch {:trigger arrange(batch)} :: Arrangement(arrange(batch), batch)
  }

  /** One arranger: the first occurrences, in batch order */
  function FirstOccurrences(batch: seq<LegacyCandidate>): (r: seq<LegacyCandidate>)
    ensures Arrangement(r, batch)
  {
    if batch == [] then []
    else
      var init := FirstOccurrences(batch[..|batch| - 1]);
      var x := batch[|batch| - 1];
      assert forall y :: y in batch <==> y in batch[..|batch| - 1] || y == x by {
        assert batch == batch[..|batch| - 1] + [x];
      }
      if x in init then init else init + [x]
  }

  /** The order in which a set hands back its elements: any order that lists each distinct tuple once */
  type Arranger = arrange: seq<LegacyCandidate> -> seq<LegacyCandidate> | Arranges(arrange) witness FirstOccurrences

  lemma {:induction false} DistinctCard(u: seq<LegacyCandidate>)
    requires NoRepeats(u)
    ensures |set x | x in u| == |u|
  {
    if u != [] {
      var n := |u| - 1;
      DistinctCard(u[..n]);
      assert (set x | x in u) == (set x | x in u[..n]) + {u[n]} by {
        assert u == u[..n] + [u[n]];
      }
      assert u[n] !in (set x | x in u[..n]);
    }
  }

  lemma {:induction false} CardAtMost(b: seq<LegacyCandidate>)
    ensures |set x | x in b| <= |b|
  {
    if b != [] {
      var n := |b| - 1;
      CardAtMost(b[..n]);
      assert (set x | x in b) == (set x | x in b[..n]) + {b[n]} by {
        assert b == b[..n] + [b[n]];
      }
    }
  }

  /** The set never holds more tuples than the batch */
  lemma ArrangementNoLonger(u: seq<LegacyCandidate>, batch: seq<LegacyCandidate>)
    requires Arrangement(u, batch)
    ensures |u| <= |batch|
  {
    DistinctCard(u);
    CardAtMost(batch);
    assert (set x | x in u) == (set x | x in batch);
  }

  // ---------------------------------------------------------------------------
  // the filters
  // ---------------------------------------------------------------------------

  /** `[x for x in entries_to_save if x not in last_entries_saved]` */
  function Unsaved(s: seq<LegacyCandidate>, lastSaved: seq<LegacyCandidate>): (r: seq<LegacyCandidate>)
    ensures |r| <= |s|
    ensures forall x :: x in r <==> x in s && x !in lastSaved
  {
    if s == [] then []
    else
      var n := |s| - 1;
      assert forall y :: y in s <==> y in s[..n] || y == s[n] by {
        assert s == s[..n] + [s[n]];
      }
      Unsaved(s[..n], lastSaved) + (if s[n] in lastSaved then [] else [s[n]])
  }

  lemma {:induction false} UnsavedNoRepeats(s: seq<LegacyCandidate>, lastSaved: seq<LegacyCandidate>)
    requires NoRepeats(s)
    ensures NoRepeats(Unsaved(s, lastSaved))
  {
    if s != [] {
      var n := |s| - 1;
      UnsavedNoRepeats(s[..n], lastSaved);
      assert s[n] !in s[..n];
    }
  }

  /** A column value, of a tuple or of a stored row */
  datatype Field = Text(text: string) | Number(number: Option<nat>) | Time(time: int)

  /** `x[6:10]`: case_website, description, doc_number and doc_website, four fields */
  function SliceKey(x: LegacyCandidate): seq<Field> {
    [Text(x.caseWebsite), Text(x.description), Number(x.docNumber), Text(x.docWebsite)]
  }

  /** A stored entry as `values_list('case__website', 'description', 'number', 'website', 'time_filed')` gives it */
  function StoredKey(caseWebsite: string, e: LegacyEntryRow): seq<Field> {
    [Text(caseWebsite), Text(e.description), Number(e.number), Text(e.website), Time(e.timeFiled)]
  }

  /** The `Q(...)` of one tuple: a stored entry equal to it on all five fields */
  predicate Matches(x: LegacyCandidate, caseWebsite: string, e: LegacyEntryRow) {
    && caseWebsite == x.caseWebsite && e.description == x.description && e.number == x.docNumber
    && e.website == x.docWebsite && e.timeFiled == x.timeFiled
  }

  predicate MatchesAny(unsaved: seq<LegacyCandidate>, caseWebsite: string, e: LegacyEntryRow) {
    exists x :: x in unsaved && Matches(x, caseWebsite, e)
  }

  /** Whether stored entry `e` has a case and equals some tuple; `select_related` joins out an entry without a case */
  predicate Hit(cases: seq<LegacyCaseRow>, unsaved: seq<LegacyCandidate>, e: LegacyEntryRow) {
    e.caseIndex < |cases| && MatchesAny(unsaved, cases[e.caseIndex].website, e)
  }

  /** Lines 118-129: the stored entries equal to some tuple, in table order, as five-field rows */
  function Returned(cases: seq<LegacyCaseRow>, entries: seq<LegacyEntryRow>, unsaved: seq<LegacyCandidate>): (r: seq<seq<Field>>)
    ensures forall k :: 0 <= k < |r| ==> |r[k]| == 5
  {
    if entries == [] then []
    else
      var n := |entries| - 1;
      var e := entries[n];
      Returned(cases, entries[..n], unsaved)
        + (if Hit(cases, unsaved, e) then [StoredKey(cases[e.caseIndex].website, e)] else [])
  }

  /** Lines 132-133: keep the tuples whose slice `x[6:10]` is not among the returned rows */
  function WithoutReturned(s: seq<LegacyCandidate>, returned: seq<seq<Field>>): (r: seq<LegacyCandidate>)
    ensures |r| <= |s|
    ensures forall x :: x in r <==> x in s && SliceKey(x) !in returned
  {
    if s == [] then []
    else
      var n := |s| - 1;
      assert s == s[..n] + [s[n]];
      WithoutReturned(s[..n], returned) + (if SliceKey(s[n]) in returned then [] else [s[n]])
  }

  /** A four-field slice never equals a five-field row: the stored-entry check removes nothing */
  lemma {:induction false} NothingReturned(s: seq<LegacyCandidate>, returned: seq<seq<Field>>)
    requires forall k :: 0 <= k < |returned| ==> |returned[k]| == 5
    ensures WithoutReturned(s, returned) == s
  {
    if s != [] {
      var n := |s| - 1;
      NothingReturned(s[..n], returned);
      assert SliceKey(s[n]) !in returned;
      assert s[..n] + [s[n]] == s;
    }
  }

  // ---------------------------------------------------------------------------
  // the cases
  // ---------------------------------------------------------------------------

  /** Line 141: a tuple survives when no later tuple has its website */
  function LastPerWebsite(b: seq<LegacyCandidate>): (r: seq<LegacyCandidate>)
    ensures forall x :: x in r ==> x in b
    ensures WebsitesOf(r) == WebsitesOf(b)
    ensures DistinctSites(r)
  {
    if b == [] then []
    else
      var rest := LastPerWebsite(b[1..]);
      assert WebsitesOf(b) == {b[0].caseWebsite} + WebsitesOf(b[1..]) by {
        assert forall x :: x in b <==> x == b[0] || x in b[1..];
      }
      if b[0].caseWebsite in WebsitesOf(b[1..]) then rest else [b[0]] + rest
  }

  /** The last case with website `w` in table order: the one `dict(...)` keeps (line 144) */
  function LastWithWebsite(cases: seq<LegacyCaseRow>, w: string): (r: Option<nat>)
    ensures r.Some? ==> (r.value < |cases| && cases[r.value].website == w
                         && forall j :: r.value < j < |cases| ==> cases[j].website != w)
    ensures r.None? ==> forall j :: 0 <= j < |cases| ==> cases[j].website != w
  {
    if cases == [] then None
    else if cases[|cases| - 1].website == w then Some(|cases| - 1)
    else LastWithWebsite(cases[..|cases| - 1], w)
  }

  /** The first case with website `w` in table order: the one `websites.index(...)` finds (line 176) */
  function FirstWithWebsite(cases: seq<LegacyCaseRow>, w: string): (r: Option<nat>)
    ensures r.Some? ==> (r.value < |cases| && cases[r.value].website == w
                         && forall j :: 0 <= j < r.value ==> cases[j].website != w)
    ensures r.None? ==> forall j :: 0 <= j < |cases| ==> cases[j].website != w
  {
    if cases == [] then None
    else
      match FirstWithWebsite(cases[..|cases| - 1], w)
      case Some(i) => Some(i)
      case None => if cases[|cases| - 1].website == w then Some(|cases| - 1) else None
  }

  /** Lines 147-152 for one tuple: a stored case with another title gets the tuple's title and number */
  function Retitled(cases: seq<LegacyCaseRow>, x: LegacyCandidate): seq<LegacyCaseRow> {
    match LastWithWebsite(cases, x.caseWebsite)
    case None => cases
    case Some(i) =>
      if cases[i].title != x.title then cases[i := cases[i].(title := x.title, number := x.caseNumber)]
      else cases
  }

  /** Lines 146-152 */
  function Retitle(cases: seq<LegacyCaseRow>, perSite: seq<LegacyCandidate>): (r: seq<LegacyCaseRow>)
    ensures SameButTitles(r, cases)
  {
    if perSite == [] then cases
    else Retitled(Retitle(cases, perSite[..|perSite| - 1]), perSite[|perSite| - 1])
  }

  /** Two tables that differ at most in titles and numbers */
  predicate SameButTitles(a: seq<LegacyCaseRow>, b: seq<LegacyCaseRow>) {
    |a| == |b| && forall i :: 0 <= i < |a| ==> a[i] == b[i].(title := a[i].title, number := a[i].number)
  }

  function CaseRowOf(x: LegacyCandidate): LegacyCaseRow {
    LegacyCaseRow(x.court, x.title, x.caseWebsite, x.caseNumber, x.name, x.caseType, x.isDateFiled, x.caseKey)
  }

  /** Line 159: the tuples whose website is not stored yet */
  function NewSites(perSite: seq<LegacyCandidate>, stored: set<string>): (r: seq<LegacyCandidate>)
    ensures forall x :: x in r <==> x in perSite && x.caseWebsite !in stored
  {
    if perSite == [] then []
    else
      var n := |perSite| - 1;
      assert forall y :: y in perSite <==> y in perSite[..n] || y == perSite[n] by {
        assert perSite == perSite[..n] + [perSite[n]];
      }
      NewSites(perSite[..n], stored) + (if perSite[n].caseWebsite in stored then [] else [perSite[n]])
  }

  function CaseRowsOf(s: seq<LegacyCandidate>): (r: seq<LegacyCaseRow>)
    ensures |r| == |s| && forall i :: 0 <= i < |s| ==> r[i] == CaseRowOf(s[i])
  {
    seq(|s|, i requires 0 <= i < |s| => CaseRowOf(s[i]))
  }

  // ---------------------------------------------------------------------------
  // the entries
  // ---------------------------------------------------------------------------

  /** The position of the case an entry is attached to; past the table when there is none */
  function CaseIndexOf(cases: seq<LegacyCaseRow>, w: string): nat {
    match FirstWithWebsite(cases, w)
    case Some(i) => i
    case None => |cases|
  }

  function EntryRowOf(cases: seq<LegacyCaseRow>, x: LegacyCandidate): LegacyEntryRow {
    LegacyEntryRow(CaseIndexOf(cases, x.caseWebsite), x.description, x.docNumber, x.docWebsite, x.timeFiled)
  }

  /** Lines 175-178 */
  function EntryRowsOf(cases: seq<LegacyCaseRow>, s: seq<LegacyCandidate>): (r: seq<LegacyEntryRow>)
    ensures |r| == |s| && forall i :: 0 <= i < |s| ==> r[i] == EntryRowOf(cases, s[i])
  {
    seq(|s|, i requires 0 <= i < |s| => EntryRowOf(cases, s[i]))
  }

  // ---------------------------------------------------------------------------
  // one save_everything call
  // ---------------------------------------------------------------------------

  datatype LegacyFlushResult = LegacyFlushResult(
    cases: seq<LegacyCaseRow>, entries: seq<LegacyEntryRow>, lastSaved: seq<LegacyCandidate>,
    duplicates: nat, casesCreated: nat, entriesCreated: nat)

  /** Lines 138-180, once the tuples to write are known */
  function Write(cases: seq<LegacyCaseRow>, entries: seq<LegacyEntryRow>, kept: seq<LegacyCandidate>)
    : (seq<LegacyCaseRow>, seq<LegacyEntryRow>, nat)
  {
    if kept == [] then (cases, entries, 0)
    else
      var perSite := LastPerWebsite(kept);
      var retitled := Retitle(cases, perSite);
      var created := NewSites(perSite, SitesOf(retitled));
      var cases' := retitled + CaseRowsOf(created);
      (cases', entries + EntryRowsOf(cases', kept), |created|)
  }

  /**
   * `save_everything(last_entries_saved, entries_to_save, ...)`: the store, the court's
   * `last_entries_saved` and the counter increases, for the set order `arrange`.
   */
  function LegacyFlush(arrange: Arranger, cases: seq<LegacyCaseRow>, entries: seq<LegacyEntryRow>,
                       lastSaved: seq<LegacyCandidate>, batch: seq<LegacyCandidate>): LegacyFlushResult
  {
    var unique := arrange(batch);
    ArrangementNoLonger(unique, batch);
    var unsaved := Unsaved(unique, lastSaved);
    if unsaved == [] then LegacyFlushResult(cases, entries, lastSaved, |batch|, 0, 0)
    else
      var kept := WithoutReturned(unsaved, Returned(cases, entries, unsaved));
      var w := Write(cases, entries, kept);
      LegacyFlushResult(w.0, w.1, lastSaved + kept, |batch| - |unsaved| + (|unsaved| - |kept|), w.2, |kept|)
  }

  // ---------------------------------------------------------------------------
  // which tuple a website's case is written from
  // ---------------------------------------------------------------------------

  /** The first tuple of `s` with website `w` */
  function SiteTuple(s: seq<LegacyCandidate>, w: string): (r: Option<LegacyCandidate>)
    ensures r.Some? <==> w in WebsitesOf(s)
    ensures r.Some? ==> r.value in s && r.value.caseWebsite == w
  {
    if s == [] then None
    else
      assert WebsitesOf(s) == {s[0].caseWebsite} + WebsitesOf(s[1..]) by {
        assert forall x :: x in s <==> x == s[0] || x in s[1..];
      }
      if s[0].caseWebsite == w then Some(s[0]) else SiteTuple(s[1..], w)
  }

  /** The last tuple of `b` with website `w` */
  function LastTuple(b: seq<LegacyCandidate>, w: string): (r: Option<LegacyCandidate>)
    ensures r.Some? <==> w in WebsitesOf(b)
    ensures r.Some? ==> r.value in b && r.value.caseWebsite == w
  {
    if b == [] then None
    else
      var n := |b| - 1;
      assert WebsitesOf(b) == WebsitesOf(b[..n]) + {b[n].caseWebsite} by {
        assert forall x :: x in b <==> x in b[..n] || x == b[n];
      }
      if b[n].caseWebsite == w then Some(b[n]) else LastTuple(b[..n], w)
  }

  /** The tuple at the last position with website `w` is the one `LastTuple` finds */
  lemma {:induction false} LastTupleIsLast(b: seq<LegacyCandidate>, w: string, j: nat)
    requires j < |b| && b[j].caseWebsite == w
    requires forall i :: j < i < |b| ==> b[i].caseWebsite != w
    ensures LastTuple(b, w) == Some(b[j])
  {
    var n := |b| - 1;
    if j < n {
      assert b[n].caseWebsite != w;
      LastTupleIsLast(b[..n], w, j);
    }
  }

  lemma UniqueBySite(s: seq<LegacyCandidate>, x: LegacyCandidate, y: LegacyCandidate)
    requires DistinctSites(s) && x in s && y in s && x.caseWebsite == y.caseWebsite
    ensures x == y
  {
    var i :| 0 <= i < |s| && s[i] == x;
    var j :| 0 <= j < |s| && s[j] == y;
    assert !(i < j) && !(j < i);
  }

  lemma SiteTupleSnoc(s: seq<LegacyCandidate>, w: string)
    requires s != [] && DistinctSites(s)
    ensures s[|s| - 1].caseWebsite !in WebsitesOf(s[..|s| - 1])
    ensures SiteTuple(s, w) == if s[|s| - 1].caseWebsite == w then Some(s[|s| - 1]) else SiteTuple(s[..|s| - 1], w)
  {
    var n := |s| - 1;
    assert s == s[..n] + [s[n]];
    assert WebsitesOf(s) == WebsitesOf(s[..n]) + {s[n].caseWebsite};
    forall x | x in s[..n] ensures x.caseWebsite != s[n].caseWebsite {
      var i :| 0 <= i < n && s[..n][i] == x;
      assert s[i] == x;
    }
    if SiteTuple(s, w).Some? {
      if s[n].caseWebsite == w {
        UniqueBySite(s, SiteTuple(s, w).value, s[n]);
      } else {
        UniqueBySite(s, SiteTuple(s, w).value, SiteTuple(s[..n], w).value);
      }
    }
  }

  lemma {:induction false} LastTupleCons(b: seq<LegacyCandidate>, w: string)
    requires b != []
    ensures LastTuple(b, w) ==
      if w in WebsitesOf(b[1..]) then LastTuple(b[1..], w)
      else if b[0].caseWebsite == w then Some(b[0]) else None
  {
    var n := |b| - 1;
    if n > 0 {
      var t := b[1..];
      assert b[..n][0] == b[0] && b[..n][1..] == t[..|t| - 1] && b[n] == t[|t| - 1];
      assert WebsitesOf(t) == WebsitesOf(t[..|t| - 1]) + {t[|t| - 1].caseWebsite} by {
        assert forall x :: x in t <==> x in t[..|t| - 1] || x == t[|t| - 1];
      }
      if b[n].caseWebsite != w {
        LastTupleCons(b[..n], w);
      }
    }
  }

  /** The tuple kept for a website is the last tuple of the batch with that website */
  lemma {:induction false} LastPerWebsiteFinds(b: seq<LegacyCandidate>, w: string)
    ensures SiteTuple(LastPerWebsite(b), w) == LastTuple(b, w)
  {
    if b != [] {
      LastPerWebsiteFinds(b[1..], w);
      LastTupleCons(b, w);
      var rest := LastPerWebsite(b[1..]);
      if b[0].caseWebsite !in WebsitesOf(b[1..]) {
        assert ([b[0]] + rest)[1..] == rest;
      }
    }
  }

  // ---------------------------------------------------------------------------
  // the title updates
  // ---------------------------------------------------------------------------

  /** Row `i` once the title updates for tuple `t` of its website are done (lines 146-152) */
  function Updated(cases: seq<LegacyCaseRow>, t: Option<LegacyCandidate>, i: nat): LegacyCaseRow
    requires i < |cases|
  {
    var c := cases[i];
    if t.Some? && LastWithWebsite(cases, c.website) == Some(i) && c.title != t.value.title
    then c.(title := t.value.title, number := t.value.caseNumber)
    else c
  }

  lemma {:induction false} SameButTitlesLookup(a: seq<LegacyCaseRow>, b: seq<LegacyCaseRow>, w: string)
    requires SameButTitles(a, b)
    ensures LastWithWebsite(a, w) == LastWithWebsite(b, w)
    ensures FirstWithWebsite(a, w) == FirstWithWebsite(b, w)
  {
    if a != [] {
      var n := |a| - 1;
      assert SameButTitles(a[..n], b[..n]);
      SameButTitlesLookup(a[..n], b[..n], w);
    }
  }

  lemma SameButTitlesSites(a: seq<LegacyCaseRow>, b: seq<LegacyCaseRow>)
    requires SameButTitles(a, b)
    ensures SitesOf(a) == SitesOf(b)
  {
    forall w | w in SitesOf(a) ensures w in SitesOf(b) {
      var c :| c in a && c.website == w;
      var i :| 0 <= i < |a| && a[i] == c;
      assert b[i].website == w;
    }
    forall w | w in SitesOf(b) ensures w in SitesOf(a) {
      var c :| c in b && c.website == w;
      var i :| 0 <= i < |b| && b[i] == c;
      assert a[i].website == w;
    }
  }

  /** For tuples with distinct websites, each case is retitled by the tuple of its website */
  lemma RetitledRowAt(cases: seq<LegacyCaseRow>, cur: seq<LegacyCaseRow>, perSite: seq<LegacyCandidate>, i: nat)
    requires perSite != [] && DistinctSites(perSite) && i < |cases| && SameButTitles(cur, cases)
    requires forall j :: 0 <= j < |cases| ==>
      cur[j] == Updated(cases, SiteTuple(perSite[..|perSite| - 1], cases[j].website), j)
    ensures Retitled(cur, perSite[|perSite| - 1])[i] == Updated(cases, SiteTuple(perSite, cases[i].website), i)
  {
    var n := |perSite| - 1;
    SameButTitlesLookup(cur, cases, perSite[n].caseWebsite);
    SiteTupleSnoc(perSite, cases[i].website);
    assert cur[i] == Updated(cases, SiteTuple(perSite[..n], cases[i].website), i);
  }

  lemma {:induction false} RetitleEffect(cases: seq<LegacyCaseRow>, perSite: seq<LegacyCandidate>)
    requires DistinctSites(perSite)
    ensures forall i :: 0 <= i < |cases| ==>
      Retitle(cases, perSite)[i] == Updated(cases, SiteTuple(perSite, cases[i].website), i)
  {
    if perSite != [] {
      var n := |perSite| - 1;
      var y := perSite[n];
      var cur := Retitle(cases, perSite[..n]);
      assert DistinctSites(perSite[..n]);
      RetitleEffect(cases, perSite[..n]);
      assert Retitle(cases, perSite) == Retitled(cur, y);
      forall i | 0 <= i < |cases|
        ensures Retitled(cur, y)[i] == Updated(cases, SiteTuple(perSite, cases[i].website), i)
      {
        RetitledRowAt(cases, cur, perSite, i);
      }
    }
  }

  lemma {:induction false} NewSitesDistinct(perSite: seq<LegacyCandidate>, stored: set<string>)
    requires DistinctSites(perSite)
    ensures DistinctSites(NewSites(perSite, stored))
  {
    if perSite != [] {
      var n := |perSite| - 1;
      assert DistinctSites(perSite[..n]);
      NewSitesDistinct(perSite[..n], stored);
      SiteTupleSnoc(perSite, "");
      var r := NewSites(perSite[..n], stored);
      forall x | x in r ensures x.caseWebsite != perSite[n].caseWebsite {
        assert x in perSite[..n];
      }
    }
  }

  lemma {:induction false} NewSitesNone(perSite: seq<LegacyCandidate>, stored: set<string>)
    requires WebsitesOf(perSite) <= stored
    ensures NewSites(perSite, stored) == []
  {
    if perSite != [] {
      var n := |perSite| - 1;
      assert perSite[n] in perSite;
      assert WebsitesOf(perSite[..n]) <= WebsitesOf(perSite) by {
        forall x | x in perSite[..n] ensures x in perSite {
        }
      }
      NewSitesNone(perSite[..n], stored);
    }
  }

  lemma FoundInTable(cases: seq<LegacyCaseRow>, w: string)
    requires w in SitesOf(cases)
    ensures FirstWithWebsite(cases, w).Some?
  {
    var c :| c in cases && c.website == w;
    var i :| 0 <= i < |cases| && cases[i] == c;
  }

  // ---------------------------------------------------------------------------
  // what one write does
  // ---------------------------------------------------------------------------

  /** Stored cases: a case whose website has tuples and another title takes the last tuple's title and number */
  lemma WriteRetitles(cases: seq<LegacyCaseRow>, entries: seq<LegacyEntryRow>, kept: seq<LegacyCandidate>)
    ensures var w := Write(cases, entries, kept);
      && |w.0| == |cases| + w.2
      && forall i :: 0 <= i < |cases| ==> w.0[i] == Updated(cases, LastTuple(kept, cases[i].website), i)
  {
    if kept != [] {
      var perSite := LastPerWebsite(kept);
      RetitleEffect(cases, perSite);
      forall i | 0 <= i < |cases| ensures SiteTuple(perSite, cases[i].website) == LastTuple(kept, cases[i].website) {
        LastPerWebsiteFinds(kept, cases[i].website);
      }
    }
  }

  /** A tuple kept for its website is the last tuple of the batch with that website */
  lemma KeptIsLast(kept: seq<LegacyCandidate>, y: LegacyCandidate)
    requires y in LastPerWebsite(kept)
    ensures LastTuple(kept, y.caseWebsite) == Some(y)
  {
    var perSite := LastPerWebsite(kept);
    LastPerWebsiteFinds(kept, y.caseWebsite);
    UniqueBySite(perSite, y, SiteTuple(perSite, y.caseWebsite).value);
  }

  lemma CreatedFrom(cases: seq<LegacyCaseRow>, kept: seq<LegacyCandidate>, retitled: seq<LegacyCaseRow>,
                    y: LegacyCandidate)
    requires SitesOf(retitled) == SitesOf(cases)
    requires y in NewSites(LastPerWebsite(kept), SitesOf(retitled))
    ensures y.caseWebsite in WebsitesOf(kept) - SitesOf(cases)
    ensures LastTuple(kept, y.caseWebsite) == Some(y)
  {
    var perSite := LastPerWebsite(kept);
    assert y in perSite && y.caseWebsite in WebsitesOf(perSite);
    KeptIsLast(kept, y);
  }

  /** What the new tuples stand for: unstored websites, each the last tuple with its website */
  predicate NewFrom(cases: seq<LegacyCaseRow>, kept: seq<LegacyCandidate>, y: LegacyCandidate) {
    y.caseWebsite in WebsitesOf(kept) - SitesOf(cases) && LastTuple(kept, y.caseWebsite) == Some(y)
  }

  lemma CreatedRows(cases: seq<LegacyCaseRow>, kept: seq<LegacyCandidate>, retitled: seq<LegacyCaseRow>,
                    created: seq<LegacyCandidate>)
    requires |retitled| == |cases|
    requires forall y :: y in created ==> NewFrom(cases, kept, y)
    ensures var rows := retitled + CaseRowsOf(created);
      forall k :: |cases| <= k < |rows| ==>
        && rows[k].website in WebsitesOf(kept) - SitesOf(cases)
        && rows[k] == CaseRowOf(LastTuple(kept, rows[k].website).value)
  {
    var rows := retitled + CaseRowsOf(created);
    forall k | |cases| <= k < |rows|
      ensures rows[k].website in WebsitesOf(kept) - SitesOf(cases)
      ensures rows[k] == CaseRowOf(LastTuple(kept, rows[k].website).value)
    {
      var y := created[k - |cases|];
      assert y in created;
      assert rows[k] == CaseRowOf(y);
    }
  }

  lemma AllNewFrom(cases: seq<LegacyCaseRow>, kept: seq<LegacyCandidate>, retitled: seq<LegacyCaseRow>)
    requires SitesOf(retitled) == SitesOf(cases)
    ensures forall y :: y in NewSites(LastPerWebsite(kept), SitesOf(retitled)) ==> NewFrom(cases, kept, y)
  {
    forall y | y in NewSites(LastPerWebsite(kept), SitesOf(retitled)) ensures NewFrom(cases, kept, y) {
      CreatedFrom(cases, kept, retitled, y);
    }
  }

  /** New cases: one per website not stored, written from the last tuple with that website */
  lemma WriteCreates(cases: seq<LegacyCaseRow>, entries: seq<LegacyEntryRow>, kept: seq<LegacyCandidate>)
    ensures var w := Write(cases, entries, kept);
      && |w.0| == |cases| + w.2
      && forall k :: |cases| <= k < |w.0| ==>
           && w.0[k].website in WebsitesOf(kept) - SitesOf(cases)
           && w.0[k] == CaseRowOf(LastTuple(kept, w.0[k].website).value)
  {
    if kept != [] {
      var retitled := Retitle(cases, LastPerWebsite(kept));
      SameButTitlesSites(retitled, cases);
      var created := NewSites(LastPerWebsite(kept), SitesOf(retitled));
      assert Write(cases, entries, kept) == (retitled + CaseRowsOf(created), entries + EntryRowsOf(retitled + CaseRowsOf(created), kept), |created|);
      AllNewFrom(cases, kept, retitled);
      CreatedRows(cases, kept, retitled, created);
    }
  }

  lemma SitesAppend(a: seq<LegacyCaseRow>, created: seq<LegacyCandidate>)
    ensures SitesOf(a + CaseRowsOf(created)) == SitesOf(a) + WebsitesOf(created)
  {
    var rows := CaseRowsOf(created);
    forall v | v in WebsitesOf(created) ensures v in SitesOf(a + rows) {
      var y :| y in created && y.caseWebsite == v;
      var m :| 0 <= m < |created| && created[m] == y;
      assert (a + rows)[|a| + m] == CaseRowOf(y);
    }
    forall v | v in SitesOf(a + rows) ensures v in SitesOf(a) + WebsitesOf(created) {
      var c :| c in a + rows && c.website == v;
      var i :| 0 <= i < |a + rows| && (a + rows)[i] == c;
      if i >= |a| {
        assert created[i - |a|] in created;
      } else {
        assert a[i] in a;
      }
    }
  }

  lemma UniqueAppend(a: seq<LegacyCaseRow>, created: seq<LegacyCandidate>)
    requires UniqueSites(a) && DistinctSites(created) && SitesOf(a) !! WebsitesOf(created)
    ensures UniqueSites(a + CaseRowsOf(created))
  {
    var t := a + CaseRowsOf(created);
    forall i, j | 0 <= i < j < |t| ensures t[i].website != t[j].website {
      if j < |a| {
        assert t[i] == a[i] && t[j] == a[j];
      } else if i < |a| {
        assert t[i] == a[i] && a[i] in a;
        assert t[i].website in SitesOf(a);
        assert t[j] == CaseRowOf(created[j - |a|]) && created[j - |a|] in created;
        assert t[j].website in WebsitesOf(created);
      } else {
        assert t[i] == CaseRowOf(created[i - |a|]) && t[j] == CaseRowOf(created[j - |a|]);
      }
    }
  }

  /** The stored websites grow by exactly the websites of the tuples */
  lemma WriteSites(cases: seq<LegacyCaseRow>, entries: seq<LegacyEntryRow>, kept: seq<LegacyCandidate>)
    ensures SitesOf(Write(cases, entries, kept).0) == SitesOf(cases) + WebsitesOf(kept)
  {
    if kept != [] {
      var perSite := LastPerWebsite(kept);
      var retitled := Retitle(cases, perSite);
      SameButTitlesSites(retitled, cases);
      var created := NewSites(perSite, SitesOf(retitled));
      SitesAppend(retitled, created);
      assert WebsitesOf(created) <= WebsitesOf(kept);
      assert WebsitesOf(kept) <= SitesOf(cases) + WebsitesOf(created) by {
        forall v | v in WebsitesOf(perSite) ensures v in SitesOf(cases) + WebsitesOf(created) {
          var y :| y in perSite && y.caseWebsite == v;
          assert v !in SitesOf(cases) ==> y in created;
        }
      }
    } else {
      assert WebsitesOf(kept) == {};
    }
  }

  /** Each website stays stored once */
  lemma WriteUnique(cases: seq<LegacyCaseRow>, entries: seq<LegacyEntryRow>, kept: seq<LegacyCandidate>)
    requires UniqueSites(cases)
    ensures UniqueSites(Write(cases, entries, kept).0)
  {
    if kept != [] {
      var perSite := LastPerWebsite(kept);
      var retitled := Retitle(cases, perSite);
      SameButTitlesSites(retitled, cases);
      var created := NewSites(perSite, SitesOf(retitled));
      NewSitesDistinct(perSite, SitesOf(retitled));
      assert UniqueSites(retitled) by {
        forall i, j | 0 <= i < j < |retitled| ensures retitled[i].website != retitled[j].website {
          assert retitled[i].website == cases[i].website && retitled[j].website == cases[j].website;
        }
      }
      UniqueAppend(retitled, created);
    }
  }

  /** Entry rows for tuples whose websites are all stored: attached, each with its tuple's fields */
  lemma EntryRowsAttach(cases: seq<LegacyCaseRow>, kept: seq<LegacyCandidate>)
    requires WebsitesOf(kept) <= SitesOf(cases)
    ensures var rows := EntryRowsOf(cases, kept);
      forall k :: 0 <= k < |kept| ==> rows[k].caseIndex < |cases| && Matches(kept[k], cases[rows[k].caseIndex].website, rows[k])
  {
    forall k | 0 <= k < |kept| ensures FirstWithWebsite(cases, kept[k].caseWebsite).Some? {
      assert kept[k] in kept;
      FoundInTable(cases, kept[k].caseWebsite);
    }
  }

  /** New entries: one per tuple, attached to a case with the tuple's website, with its fields */
  lemma WriteEntries(cases: seq<LegacyCaseRow>, entries: seq<LegacyEntryRow>, kept: seq<LegacyCandidate>)
    requires Attached(cases, entries)
    ensures var w := Write(cases, entries, kept);
      && Attached(w.0, w.1)
      && |w.1| == |entries| + |kept| && w.1[..|entries|] == entries
      && forall k :: 0 <= k < |kept| ==> Matches(kept[k], w.0[w.1[|entries| + k].caseIndex].website, w.1[|entries| + k])
  {
    var w := Write(cases, entries, kept);
    WriteRetitles(cases, entries, kept);
    WriteSites(cases, entries, kept);
    if kept != [] {
      EntryRowsAttach(w.0, kept);
      var rows := EntryRowsOf(w.0, kept);
      assert w.1 == entries + rows;
      forall i | 0 <= i < |w.1| ensures w.1[i].caseIndex < |w.0| {
        if i >= |entries| {
          assert w.1[i] == rows[i - |entries|];
        }
      }
    }
  }

  // ---------------------------------------------------------------------------
  // what one save_everything call does
  // ---------------------------------------------------------------------------

  /** The duplicate counter and the created entries together account for the whole batch */
  lemma LegacyFlushCounts(arrange: Arranger, cases: seq<LegacyCaseRow>, entries: seq<LegacyEntryRow>,
                          lastSaved: seq<LegacyCandidate>, batch: seq<LegacyCandidate>)
    ensures var f := LegacyFlush(arrange, cases, entries, lastSaved, batch);
      f.duplicates + f.entriesCreated == |batch|
  {
  }

  /**
   * Every distinct tuple of the batch that the court has not saved in this run is written
   * and remembered, even when an equal entry is stored: the stored-entry check removes nothing.
   */
  lemma LegacyFlushWritesUnsaved(arrange: Arranger, cases: seq<LegacyCaseRow>, entries: seq<LegacyEntryRow>,
                                 lastSaved: seq<LegacyCandidate>, batch: seq<LegacyCandidate>)
    ensures var f := LegacyFlush(arrange, cases, entries, lastSaved, batch);
      var u := Unsaved(arrange(batch), lastSaved);
      && (forall x :: x in u <==> x in batch && x !in lastSaved)
      && NoRepeats(u)
      && f.lastSaved == lastSaved + u
      && f.entriesCreated == |u|
  {
    var u := Unsaved(arrange(batch), lastSaved);
    UnsavedNoRepeats(arrange(batch), lastSaved);
    if u != [] {
      NothingReturned(u, Returned(cases, entries, u));
    }
  }

  /** The entry table grows by one row per written tuple, attached to a case with its website */
  lemma LegacyFlushEntries(arrange: Arranger, cases: seq<LegacyCaseRow>, entries: seq<LegacyEntryRow>,
                           lastSaved: seq<LegacyCandidate>, batch: seq<LegacyCandidate>)
    requires Attached(cases, entries)
    ensures var f := LegacyFlush(arrange, cases, entries, lastSaved, batch);
      var u := Unsaved(arrange(batch), lastSaved);
      && Attached(f.cases, f.entries)
      && |f.entries| == |entries| + |u| && f.entries[..|entries|] == entries
      && forall k :: 0 <= k < |u| ==>
           Matches(u[k], f.cases[f.entries[|entries| + k].caseIndex].website, f.entries[|entries| + k])
  {
    var u := Unsaved(arrange(batch), lastSaved);
    if u != [] {
      NothingReturned(u, Returned(cases, entries, u));
      WriteEntries(cases, entries, u);
    }
  }

  /**
   * The case table: stored cases keep their place and are retitled from the last tuple of
   * their website; one case is added per new website; websites stay unique.
   */
  lemma LegacyFlushCases(arrange: Arranger, cases: seq<LegacyCaseRow>, entries: seq<LegacyEntryRow>,
                         lastSaved: seq<LegacyCandidate>, batch: seq<LegacyCandidate>)
    ensures var f := LegacyFlush(arrange, cases, entries, lastSaved, batch);
      var u := Unsaved(arrange(batch), lastSaved);
      && |f.cases| == |cases| + f.casesCreated
      && (forall i :: 0 <= i < |cases| ==> f.cases[i] == Updated(cases, LastTuple(u, cases[i].website), i))
      && (forall k :: |cases| <= k < |f.cases| ==>
            && f.cases[k].website in WebsitesOf(u) - SitesOf(cases)
            && f.cases[k] == CaseRowOf(LastTuple(u, f.cases[k].website).value))
      && SitesOf(f.cases) == SitesOf(cases) + WebsitesOf(u)
      && (UniqueSites(cases) ==> UniqueSites(f.cases))
  {
    var u := Unsaved(arrange(batch), lastSaved);
    if u != [] {
      NothingReturned(u, Returned(cases, entries, u));
      WriteRetitles(cases, entries, u);
      WriteCreates(cases, entries, u);
      WriteSites(cases, entries, u);
      if UniqueSites(cases) {
        WriteUnique(cases, entries, u);
      }
    } else {
      assert WebsitesOf(u) == {};
    }
  }

  /** A batch whose websites are all stored creates no case */
  lemma LegacyFlushNoNewCases(arrange: Arranger, cases: seq<LegacyCaseRow>, entries: seq<LegacyEntryRow>,
                              lastSaved: seq<LegacyCandidate>, batch: seq<LegacyCandidate>)
    requires WebsitesOf(Unsaved(arrange(batch), lastSaved)) <= SitesOf(cases)
    ensures LegacyFlush(arrange, cases, entries, lastSaved, batch).casesCreated == 0
  {
    var u := Unsaved(arrange(batch), lastSaved);
    if u != [] {
      NothingReturned(u, Returned(cases, entries, u));
      var perSite := LastPerWebsite(u);
      var retitled := Retitle(cases, perSite);
      SameButTitlesSites(retitled, cases);
      NewSitesNone(perSite, SitesOf(retitled));
    }
  }

  /**
   * A flush starts from an empty `last_entries_saved`, so, without the debugging block that
   * empties the tables at the start of a run, a second run over the same batch writes every
   * entry again, though no new case.
   */
  lemma ResavingDuplicates(arrange: Arranger, cases: seq<LegacyCaseRow>, entries: seq<LegacyEntryRow>,
                           batch: seq<LegacyCandidate>)
    requires Attached(cases, entries)
    ensures var first := LegacyFlush(arrange, cases, entries, [], batch);
      Attached(first.cases, first.entries) &&
      var second := LegacyFlush(arrange, first.cases, first.entries, [], batch);
      && second.entriesCreated == first.entriesCreated
      && |second.entries| == |first.entries| + first.entriesCreated
      && second.casesCreated == 0
  {
    var first := LegacyFlush(arrange, cases, entries, [], batch);
    LegacyFlushWritesUnsaved(arrange, cases, entries, [], batch);
    LegacyFlushEntries(arrange, cases, entries, [], batch);
    LegacyFlushCases(arrange, cases, entries, [], batch);
    LegacyFlushWritesUnsaved(arrange, first.cases, first.entries, [], batch);
    LegacyFlushEntries(arrange, first.cases, first.entries, [], batch);
    LegacyFlushNoNewCases(arrange, first.cases, first.entries, [], batch);
  }

  // ---------------------------------------------------------------------------
  // the legacy tables and save_everything
  // ---------------------------------------------------------------------------

  /** The legacy case and entry tables, in the order queries return their rows */
  class LegacyStore {
    var cases: seq<LegacyCaseRow>
    var entries: seq<LegacyEntryRow>

    ghost predicate Valid()
      reads this
    {
      Attached(cases, entries)
    }

    constructor ()
      ensures Valid() && cases == [] && entries == []
    {
      cases := [];
      entries := [];
    }

    /** Lines 118-129: the stored entries equal to some tuple, as five-field rows */
    method MatchingEntries(unsaved: seq<LegacyCandidate>) returns (returned: seq<seq<Field>>)
      ensures returned == Returned(cases, entries, unsaved)
    {
      returned := [];
      var i := 0;
      while i < |entries|
        invariant i <= |entries|
        invariant returned == Returned(cases, entries[..i], unsaved)
      {
        assert entries[..i + 1][..i] == entries[..i];
        var e := entries[i];
        if Hit(cases, unsaved, e) {
          returned := returned + [StoredKey(cases[e.caseIndex].website, e)];
        }
        i := i + 1;
      }
      assert entries[..i] == entries;
    }

    /** Line 144: the case `returned_case_dict` keeps for a website */
    method LastCaseWith(w: string) returns (r: Option<nat>)
      ensures r == LastWithWebsite(cases, w)
    {
      r := None;
      var i := 0;
      while i < |cases|
        invariant i <= |cases|
        invariant r == LastWithWebsite(cases[..i], w)
      {
        assert cases[..i + 1][..i] == cases[..i];
        if cases[i].website == w {
          r := Some(i);
        }
        i := i + 1;
      }
      assert cases[..i] == cases;
    }

    /** Lines 157-158: the websites of the stored cases */
    method StoredWebsites() returns (sites: set<string>)
      ensures sites == SitesOf(cases)
    {
      sites := {};
      var i := 0;
      while i < |cases|
        invariant i <= |cases|
        invariant sites == SitesOf(cases[..i])
      {
        assert cases[..i + 1] == cases[..i] + [cases[i]];
        sites := sites + {cases[i].website};
        i := i + 1;
      }
      assert cases[..i] == cases;
    }

    /** Line 176: `websites.index(...)`, the first case with a website */
    method FirstCaseWith(w: string) returns (r: nat)
      ensures r == CaseIndexOf(cases, w)
    {
      r := 0;
      while r < |cases| && cases[r].website != w
        invariant r <= |cases|
        invariant forall j :: 0 <= j < r ==> cases[j].website != w
      {
        r := r + 1;
      }
    }

    /** Lines 149-151: a new title and case number for a stored case */
    method SetTitle(i: nat, title: string, number: string)
      requires Valid() && i < |cases|
      modifies this
      ensures Valid()
      ensures cases == old(cases)[i := old(cases)[i].(title := title, number := number)]
      ensures entries == old(entries)
    {
      cases := cases[i := cases[i].(title := title, number := number)];
    }

    /** Lines 156-166: `Case.objects.bulk_create(...)` */
    method AddCases(rows: seq<LegacyCaseRow>)
      requires Valid()
      modifies this
      ensures Valid()
      ensures cases == old(cases) + rows && entries == old(entries)
    {
      cases := cases + rows;
    }

    /** Line 180: `Entry.objects.bulk_create(...)` */
    method AddEntries(rows: seq<LegacyEntryRow>)
      requires Valid()
      requires forall k :: 0 <= k < |rows| ==> rows[k].caseIndex < |cases|
      modifies this
      ensures Valid()
      ensures entries == old(entries) + rows && cases == old(cases)
    {
      entries := entries + rows;
    }
  }

  /** Line 113 */
  method DropSavedTuples(unique: seq<LegacyCandidate>, lastSaved: seq<LegacyCandidate>) returns (r: seq<LegacyCandidate>)
    ensures r == Unsaved(unique, lastSaved)
  {
    r := [];
    var i := 0;
    while i < |unique|
      invariant i <= |unique|
      invariant r == Unsaved(unique[..i], lastSaved)
    {
      assert unique[..i + 1][..i] == unique[..i];
      if unique[i] !in lastSaved {
        r := r + [unique[i]];
      }
      i := i + 1;
    }
    assert unique[..i] == unique;
  }

  /** Lines 132-133 */
  method DropReturned(s: seq<LegacyCandidate>, returned: seq<seq<Field>>) returns (r: seq<LegacyCandidate>)
    ensures r == WithoutReturned(s, returned)
  {
    r := [];
    var i := 0;
    while i < |s|
      invariant i <= |s|
      invariant r == WithoutReturned(s[..i], returned)
    {
      assert s[..i + 1][..i] == s[..i];
      if SliceKey(s[i]) !in returned {
        r := r + [s[i]];
      }
      i := i + 1;
    }
    assert s[..i] == s;
  }

  /** Lines 140-141 */
  method KeepLastPerWebsite(b: seq<LegacyCandidate>) returns (r: seq<LegacyCandidate>)
    ensures r == LastPerWebsite(b)
  {
    r := [];
    var i := 0;
    while i < |b|
      invariant i <= |b|
      invariant r + LastPerWebsite(b[i..]) == LastPerWebsite(b)
    {
      assert b[i..][1..] == b[i + 1..];
      if b[i].caseWebsite !in WebsitesOf(b[i + 1..]) {
        r := r + [b[i]];
      }
      i := i + 1;
    }
  }

  /** Lines 147-152 for one tuple */
  method RetitleOne(store: LegacyStore, x: LegacyCandidate)
    requires store.Valid()
    modifies store
    ensures store.Valid()
    ensures store.cases == Retitled(old(store.cases), x) && store.entries == old(store.entries)
  {
    var found := store.LastCaseWith(x.caseWebsite);
    if found.Some? && store.cases[found.value].title != x.title {
      store.SetTitle(found.value, x.title, x.caseNumber);
    }
  }

  /** Lines 142-152 */
  method UpdateTitles(store: LegacyStore, perSite: seq<LegacyCandidate>)
    requires store.Valid()
    modifies store
    ensures store.Valid()
    ensures store.cases == Retitle(old(store.cases), perSite) && store.entries == old(store.entries)
  {
    var k := 0;
    while k < |perSite|
      invariant k <= |perSite| && store.Valid()
      invariant store.cases == Retitle(old(store.cases), perSite[..k]) && store.entries == old(store.entries)
    {
      assert perSite[..k + 1][..k] == perSite[..k];
      RetitleOne(store, perSite[k]);
      k := k + 1;
    }
    assert perSite[..k] == perSite;
  }

  /** Lines 155-159 */
  method DropStoredSites(store: LegacyStore, perSite: seq<LegacyCandidate>) returns (created: seq<LegacyCandidate>)
    ensures created == NewSites(perSite, SitesOf(store.cases))
  {
    var stored := store.StoredWebsites();
    created := [];
    var k := 0;
    while k < |perSite|
      invariant k <= |perSite|
      invariant created == NewSites(perSite[..k], stored)
    {
      assert perSite[..k + 1][..k] == perSite[..k];
      if perSite[k].caseWebsite !in stored {
        created := created + [perSite[k]];
      }
      k := k + 1;
    }
    assert perSite[..k] == perSite;
  }

  /** Lines 156-166 */
  method CaseRowsFor(created: seq<LegacyCandidate>) returns (rows: seq<LegacyCaseRow>)
    ensures rows == CaseRowsOf(created)
  {
    rows := [];
    var k := 0;
    while k < |created|
      invariant k <= |created|
      invariant rows == CaseRowsOf(created[..k])
    {
      rows := rows + [CaseRowOf(created[k])];
      k := k + 1;
    }
    assert created[..k] == created;
  }

  /** Lines 174-180 */
  method EntryRowsFor(store: LegacyStore, kept: seq<LegacyCandidate>) returns (rows: seq<LegacyEntryRow>)
    ensures rows == EntryRowsOf(store.cases, kept)
  {
    rows := [];
    var k := 0;
    while k < |kept|
      invariant k <= |kept|
      invariant rows == EntryRowsOf(store.cases, kept[..k])
    {
      var i := store.FirstCaseWith(kept[k].caseWebsite);
      rows := rows + [LegacyEntryRow(i, kept[k].description, kept[k].docNumber, kept[k].docWebsite, kept[k].timeFiled)];
      k := k + 1;
    }
    assert kept[..k] == kept;
  }

  /** Lines 138-180: the writes for the tuples left to save */
  method WriteKept(store: LegacyStore, kept: seq<LegacyCandidate>) returns (casesCreated: nat)
    requires store.Valid()
    modifies store
    ensures store.Valid()
    ensures (store.cases, store.entries, casesCreated) == Write(old(store.cases), old(store.entries), kept)
  {
    WriteEntries(store.cases, store.entries, kept);
    if kept == [] {
      return 0;
    }
    var perSite := KeepLastPerWebsite(kept);
    UpdateTitles(store, perSite);
    var created := DropStoredSites(store, perSite);
    var rows := CaseRowsFor(created);
    store.AddCases(rows);
    var entryRows := EntryRowsFor(store, kept);
    store.AddEntries(entryRows);
    casesCreated := |created|;
  }

  /**
   * `save_everything`: writes the batch for the set order `arrange`, returns the court's new
   * `last_entries_saved` and the increases of the duplicate, case and entry counters.
   */
  method SaveEverything(store: LegacyStore, arrange: Arranger, lastSaved: seq<LegacyCandidate>, batch: seq<LegacyCandidate>)
    returns (lastSaved': seq<LegacyCandidate>, duplicates: nat, casesCreated: nat, entriesCreated: nat)
    requires store.Valid()
    modifies store
    ensures store.Valid()
    ensures LegacyFlush(arrange, old(store.cases), old(store.entries), lastSaved, batch)
         == LegacyFlushResult(store.cases, store.entries, lastSaved', duplicates, casesCreated, entriesCreated)
  {
    var unique := arrange(batch);
    ArrangementNoLonger(unique, batch);
    var unsaved := DropSavedTuples(unique, lastSaved);
    if unsaved == [] {
      return lastSaved, |batch|, 0, 0;
    }
    var returned := store.MatchingEntries(unsaved);
    var kept := DropReturned(unsaved, returned);
    lastSaved' := lastSaved + kept;
    duplicates := |batch| - |unsaved| + (|unsaved| - |kept|);
    casesCreated := WriteKept(store, kept);
    entriesCreated := |kept|;
  }
}
