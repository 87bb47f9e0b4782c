/**
 * `save_everything` of `trackcases`: one flush of the pending candidates into the
 * store of cases and entries. The specification functions state each filtering step on
 * its own; `Flush` composes them, and `SaveEverything` is the method the ingestion loop
 * calls, proved to leave the store exactly as `Flush` says.
 */
module Batch {
  import opened Wrappers
  import opened Courts
  import opened Track

  /** A stored case, keyed by its case id */
  datatype CaseRow = CaseRow(
    court: nat, title: string, website: string, number: string, name: string,
    caseType: CaseType, isDateFiled: bool)

  /** A stored docket entry, keyed by its entry id; `caseId` refers to its case */
  datatype EntryRow = EntryRow(
    caseId: nat, description: string, number: Option<nat>, website: Option<string>, timeFiled: int)

  function CaseRowOf(x: Candidate): CaseRow {
    CaseRow(x.court, x.title, x.caseWebsite, x.caseNumber, x.name, x.caseType, x.isDateFiled)
  }

  function EntryRowOf(x: Candidate): EntryRow {
    EntryRow(x.caseId, x.description, x.docNumber, x.docWebsite, x.timeFiled)
  }

  /** Every stored entry belongs to a stored case (the foreign key of the entry table) */
  predicate Integral(cases: map<nat, CaseRow>, entries: map<nat, EntryRow>) {
    forall id :: id in entries ==> entries[id].caseId in cases
  }

  // ---------------------------------------------------------------------------
  // ids of a batch
  // ---------------------------------------------------------------------------

  function EntryIds(s: seq<Candidate>): set<nat> {
    set x | x in s :: x.entryId
  }

  function CaseIds(s: seq<Candidate>): set<nat> {
    set x | x in s :: x.caseId
  }

  function Elements(ids: seq<nat>): set<nat> {
    set id | id in ids
  }

  /** `[x[11] for x in s]` */
  function EntryIdSeq(s: seq<Candidate>): (r: seq<nat>)
    ensures |r| == |s| && forall i :: 0 <= i < |s| ==> r[i] == s[i].entryId
  {
    seq(|s|, i requires 0 <= i < |s| => s[i].entryId)
  }

  /** `[x[12] for x in s]` */
  function CaseIdSeq(s: seq<Candidate>): (r: seq<nat>)
    ensures |r| == |s| && forall i :: 0 <= i < |s| ==> r[i] == s[i].caseId
  {
    seq(|s|, i requires 0 <= i < |s| => s[i].caseId)
  }

  lemma EntryIdsSnoc(a: seq<Candidate>, x: Candidate)
    ensures EntryIds(a + [x]) == EntryIds(a) + {x.entryId}
  {
    forall id | id in EntryIds(a) + {x.entryId} ensures id in EntryIds(a + [x]) {
      if id == x.entryId {
        assert x in a + [x];
      } else {
        var y :| y in a && y.entryId == id;
        assert y in a + [x];
      }
    }
  }

  lemma CaseIdsSnoc(a: seq<Candidate>, x: Candidate)
    ensures CaseIds(a + [x]) == CaseIds(a) + {x.caseId}
  {
    forall id | id in CaseIds(a) + {x.caseId} ensures id in CaseIds(a + [x]) {
      if id == x.caseId {
        assert x in a + [x];
      } else {
        var y :| y in a && y.caseId == id;
        assert y in a + [x];
      }
    }
  }

  predicate DistinctEntryIds(s: seq<Candidate>) {
    forall i, j :: 0 <= i < j < |s| ==> s[i].entryId != s[j].entryId
  }

  predicate DistinctCaseIds(s: seq<Candidate>) {
    forall i, j :: 0 <= i < j < |s| ==> s[i].caseId != s[j].caseId
  }

  lemma {:induction false} DistinctCaseIdsCount(s: seq<Candidate>)
    requires DistinctCaseIds(s)
    ensures |CaseIds(s)| == |s|
  {
    if s != [] {
      var init := s[..|s| - 1];
      var last := s[|s| - 1];
      assert DistinctCaseIds(init);
      DistinctCaseIdsCount(init);
      assert s == init + [last];
      CaseIdsSnoc(init, last);
      NotInCaseIds(init, last.caseId);
    }
  }

  lemma NotInCaseIds(s: seq<Candidate>, id: nat)
    requires forall i :: 0 <= i < |s| ==> s[i].caseId != id
    ensures id !in CaseIds(s)
  {
  }

  lemma {:induction false} DistinctEntryIdsCount(s: seq<Candidate>)
    requires DistinctEntryIds(s)
    ensures |EntryIds(s)| == |s|
  {
    if s != [] {
      var init := s[..|s| - 1];
      var last := s[|s| - 1];
      assert DistinctEntryIds(init);
      DistinctEntryIdsCount(init);
      assert s == init + [last];
      EntryIdsSnoc(init, last);
      NotInEntryIds(init, last.entryId);
    }
  }

  lemma NotInEntryIds(s: seq<Candidate>, id: nat)
    requires forall i :: 0 <= i < |s| ==> s[i].entryId != id
    ensures id !in EntryIds(s)
  {
  }

  // ---------------------------------------------------------------------------
  // the filtering steps
  // ---------------------------------------------------------------------------

  /** Lines 150-153: a candidate is kept when no earlier one has its entry id */
  function FirstOf(b: seq<Candidate>): (r: seq<Candidate>)
    ensures |r| <= |b|
    ensures forall x :: x in r ==> x in b
    ensures EntryIds(r) == EntryIds(b)
    ensures DistinctEntryIds(r)
  {
    if b == [] then []
    else
      var init := b[..|b| - 1];
      var last := b[|b| - 1];
      assert b == init + [last];
      var rest := FirstOf(init);
      if last.entryId in EntryIds(init) then rest
      else
        EntryIdsSnoc(init, last);
        EntryIdsSnoc(rest, last);
        assert forall i :: 0 <= i < |rest| ==> rest[i] in init;
        rest + [last]
  }

  /** One more candidate is kept exactly when its entry id is new */
  lemma FirstOfSnoc(b: seq<Candidate>, x: Candidate)
    ensures FirstOf(b + [x]) == if x.entryId in EntryIds(b) then FirstOf(b) else FirstOf(b) + [x]
  {
    assert (b + [x])[..|b + [x]| - 1] == b;
  }

  /** The first candidate of each entry id is the one kept */
  lemma {:induction false} FirstOfKeepsFirst(b: seq<Candidate>, i: nat)
    requires i < |b| && b[i].entryId !in EntryIds(b[..i])
    ensures b[i] in FirstOf(b)
    decreases |b|
  {
    var init := b[..|b| - 1];
    if i < |b| - 1 {
      assert init[..i] == b[..i];
      FirstOfKeepsFirst(init, i);
      assert b == init + [b[|b| - 1]];
    }
  }

  /** Lines 158 and 171-172: the candidates whose entry id is not in `ids` */
  function WithoutIds(b: seq<Candidate>, ids: set<nat>): (r: seq<Candidate>)
    ensures |r| <= |b|
    ensures forall x :: x in r <==> x in b && x.entryId !in ids
  {
    if b == [] then []
    else
      var init := b[..|b| - 1];
      var last := b[|b| - 1];
      assert b == init + [last];
      if last.entryId in ids then WithoutIds(init, ids) else WithoutIds(init, ids) + [last]
  }

  /** The filter keeps the batch order: one more candidate is appended exactly when its id is not in `ids` */
  lemma WithoutIdsSnoc(b: seq<Candidate>, x: Candidate, ids: set<nat>)
    ensures WithoutIds(b + [x], ids) == if x.entryId in ids then WithoutIds(b, ids) else WithoutIds(b, ids) + [x]
  {
    assert (b + [x])[..|b + [x]| - 1] == b;
  }

  lemma {:induction false} WithoutIdsDistinct(b: seq<Candidate>, ids: set<nat>)
    requires DistinctEntryIds(b)
    ensures DistinctEntryIds(WithoutIds(b, ids))
  {
    if b != [] {
      var init := b[..|b| - 1];
      var last := b[|b| - 1];
      assert b == init + [last];
      assert DistinctEntryIds(init);
      WithoutIdsDistinct(init, ids);
      var rest := WithoutIds(init, ids);
      forall x | x in rest ensures x.entryId != last.entryId {
        var i :| 0 <= i < |init| && init[i] == x;
        assert b[i] == x;
      }
    }
  }

  /** Only membership in `ids` of the candidates' own entry ids matters */
  lemma {:induction false} WithoutIdsAgree(b: seq<Candidate>, ids: set<nat>, other: set<nat>)
    requires forall x :: x in b ==> (x.entryId in ids <==> x.entryId in other)
    ensures WithoutIds(b, ids) == WithoutIds(b, other)
  {
    if b != [] {
      var init := b[..|b| - 1];
      assert b == init + [b[|b| - 1]];
      WithoutIdsAgree(init, ids, other);
    }
  }

  /** The candidate at `i` is the last one of its case in `b` */
  predicate IsLastOfCase(b: seq<Candidate>, i: nat)
    requires i < |b|
  {
    b[i].caseId !in CaseIds(b[i + 1..])
  }

  /** Lines 179-180: one candidate per case id, the last occurrence */
  function LastPerCase(b: seq<Candidate>): (r: seq<Candidate>)
    ensures |r| <= |b|
    ensures forall x :: x in r ==> x in b
    ensures CaseIds(r) == CaseIds(b)
    ensures DistinctCaseIds(r)
  {
    if b == [] then []
    else
      var rest := LastPerCase(b[1..]);
      assert b == [b[0]] + b[1..];
      assert CaseIds(b) == {b[0].caseId} + CaseIds(b[1..]);
      if b[0].caseId in CaseIds(b[1..]) then rest
      else
        assert forall j :: 0 <= j < |rest| ==> rest[j].caseId != b[0].caseId;
        [b[0]] + rest
  }

  lemma {:induction false} LastPerCaseKeepsLast(b: seq<Candidate>, i: nat)
    requires i < |b| && IsLastOfCase(b, i)
    ensures b[i] in LastPerCase(b)
  {
    if i > 0 {
      assert b[1..][i - 1..] == b[i..];
      assert b[1..][i - 1 + 1..] == b[i + 1..];
      LastPerCaseKeepsLast(b[1..], i - 1);
    }
  }

  lemma {:induction false} LastPerCaseOnlyLast(b: seq<Candidate>, x: Candidate)
    requires x in LastPerCase(b)
    ensures exists i: nat :: i < |b| && b[i] == x && IsLastOfCase(b, i)
  {
    if b[0] == x && IsLastOfCase(b, 0) {
    } else {
      assert b == [b[0]] + b[1..];
      assert x in LastPerCase(b[1..]);
      LastPerCaseOnlyLast(b[1..], x);
      var j: nat :| j < |b[1..]| && b[1..][j] == x && IsLastOfCase(b[1..], j);
      assert b[1..][j + 1..] == b[j + 2..];
      assert b[j + 1] == x && IsLastOfCase(b, j + 1);
    }
  }

  /** Lines 188-195: a stored case whose title differs takes the new title and number */
  function UpdateTitle(cases: map<nat, CaseRow>, x: Candidate): map<nat, CaseRow> {
    if x.caseId in cases && cases[x.caseId].title != x.title then
      cases[x.caseId := cases[x.caseId].(title := x.title, number := x.caseNumber)]
    else cases
  }

  function UpdateTitles(cases: map<nat, CaseRow>, s: seq<Candidate>): (r: map<nat, CaseRow>)
    ensures r.Keys == cases.Keys
  {
    if s == [] then cases else UpdateTitle(UpdateTitles(cases, s[..|s| - 1]), s[|s| - 1])
  }

  /**
   * With one candidate per case, every stored case of the batch ends with the
   * candidate's title, keeps its name, and takes the candidate's number exactly when
   * its title changed; the other stored cases are untouched.
   */
  lemma {:induction false} UpdateTitlesEffect(cases: map<nat, CaseRow>, s: seq<Candidate>)
    requires DistinctCaseIds(s)
    ensures forall id :: id in cases && id !in CaseIds(s) ==> UpdateTitles(cases, s)[id] == cases[id]
    ensures forall i :: 0 <= i < |s| && s[i].caseId in cases ==>
      UpdateTitles(cases, s)[s[i].caseId] ==
      cases[s[i].caseId].(title := s[i].title,
                          number := if cases[s[i].caseId].title == s[i].title then cases[s[i].caseId].number
                                    else s[i].caseNumber)
  {
    if s != [] {
      var init := s[..|s| - 1];
      var last := s[|s| - 1];
      assert s == init + [last];
      assert DistinctCaseIds(init);
      UpdateTitlesEffect(cases, init);
      assert last.caseId !in CaseIds(init) by {
        forall x | x in init ensures x.caseId != last.caseId {
          var i :| 0 <= i < |init| && init[i] == x;
          assert s[i] == x;
        }
      }
      forall i | 0 <= i < |s| - 1 && s[i].caseId in cases
        ensures UpdateTitles(cases, s)[s[i].caseId] == UpdateTitles(cases, init)[s[i].caseId]
      {
        assert init[i] == s[i];
      }
    }
  }

  /** Lines 199-203: the per-case candidates whose case is not stored yet */
  function NewCases(s: seq<Candidate>, stored: set<nat>): (r: seq<Candidate>)
    ensures |r| <= |s|
    ensures forall x :: x in r <==> x in s && x.caseId !in stored
  {
    if s == [] then []
    else
      var init := s[..|s| - 1];
      var last := s[|s| - 1];
      assert s == init + [last];
      if last.caseId in stored then NewCases(init, stored) else NewCases(init, stored) + [last]
  }

  lemma {:induction false} NewCasesDistinct(s: seq<Candidate>, stored: set<nat>)
    requires DistinctCaseIds(s)
    ensures DistinctCaseIds(NewCases(s, stored))
  {
    if s != [] {
      var init := s[..|s| - 1];
      var last := s[|s| - 1];
      assert s == init + [last];
      assert DistinctCaseIds(init);
      NewCasesDistinct(init, stored);
      var rest := NewCases(init, stored);
      forall x | x in rest ensures x.caseId != last.caseId {
        var i :| 0 <= i < |init| && init[i] == x;
        assert s[i] == x;
      }
    }
  }

  /** The rows `bulk_create` writes for new cases */
  function CaseRowsOf(s: seq<Candidate>): (r: map<nat, CaseRow>)
    ensures r.Keys == CaseIds(s)
  {
    if s == [] then map[]
    else
      var init := s[..|s| - 1];
      var last := s[|s| - 1];
      assert s == init + [last];
      CaseRowsOf(init)[last.caseId := CaseRowOf(last)]
  }

  lemma {:induction false} CaseRowsOfAt(s: seq<Candidate>, i: nat)
    requires DistinctCaseIds(s) && i < |s|
    ensures CaseRowsOf(s)[s[i].caseId] == CaseRowOf(s[i])
  {
    var init := s[..|s| - 1];
    assert s == init + [s[|s| - 1]];
    if i < |s| - 1 {
      assert DistinctCaseIds(init) && init[i] == s[i];
      CaseRowsOfAt(init, i);
    }
  }

  /** The rows `bulk_create` writes for new entries */
  function EntryRowsOf(s: seq<Candidate>): (r: map<nat, EntryRow>)
    ensures r.Keys == EntryIds(s)
    ensures forall id :: id in r ==> r[id].caseId in CaseIds(s)
  {
    if s == [] then map[]
    else
      var init := s[..|s| - 1];
      var last := s[|s| - 1];
      assert s == init + [last];
      EntryRowsOf(init)[last.entryId := EntryRowOf(last)]
  }

  lemma {:induction false} EntryRowsOfAt(s: seq<Candidate>, i: nat)
    requires DistinctEntryIds(s) && i < |s|
    ensures EntryRowsOf(s)[s[i].entryId] == EntryRowOf(s[i])
  {
    var init := s[..|s| - 1];
    assert s == init + [s[|s| - 1]];
    if i < |s| - 1 {
      assert DistinctEntryIds(init) && init[i] == s[i];
      EntryRowsOfAt(init, i);
    }
  }

  // ---------------------------------------------------------------------------
  // one flush
  // ---------------------------------------------------------------------------

  /** The candidates that become new entries */
  function Survivors(entries: map<nat, EntryRow>, lastSaved: seq<nat>, batch: seq<Candidate>): (r: seq<Candidate>)
    ensures |r| <= |batch|
    ensures DistinctEntryIds(r)
    ensures forall x :: x in r <==> x in FirstOf(batch) && x.entryId !in lastSaved && x.entryId !in entries
  {
    var unique := FirstOf(batch);
    WithoutIdsDistinct(unique, Elements(lastSaved));
    WithoutIdsDistinct(WithoutIds(unique, Elements(lastSaved)), entries.Keys);
    WithoutIds(WithoutIds(unique, Elements(lastSaved)), entries.Keys)
  }

  /**
   * The survivors keep the batch order: one more candidate joins them, at the end, exactly
   * when its entry id is new to the batch, to `last_entries_saved` and to the store.
   */
  lemma SurvivorsSnoc(entries: map<nat, EntryRow>, lastSaved: seq<nat>, batch: seq<Candidate>, x: Candidate)
    ensures Survivors(entries, lastSaved, batch + [x]) ==
      if x.entryId in EntryIds(batch) || x.entryId in lastSaved || x.entryId in entries then Survivors(entries, lastSaved, batch)
      else Survivors(entries, lastSaved, batch) + [x]
  {
    FirstOfSnoc(batch, x);
    var unique := FirstOf(batch);
    WithoutIdsSnoc(unique, x, Elements(lastSaved));
    WithoutIdsSnoc(WithoutIds(unique, Elements(lastSaved)), x, entries.Keys);
  }

  /** The cases the survivors create: the last survivor of each case id not stored yet */
  function CreatedCases(cases: map<nat, CaseRow>, survivors: seq<Candidate>): seq<Candidate> {
    NewCases(LastPerCase(survivors), cases.Keys)
  }

  /** The case table after the survivors are written */
  function WrittenCases(cases: map<nat, CaseRow>, survivors: seq<Candidate>): map<nat, CaseRow> {
    UpdateTitles(cases, LastPerCase(survivors)) + CaseRowsOf(CreatedCases(cases, survivors))
  }

  datatype FlushResult = FlushResult(
    cases: map<nat, CaseRow>, entries: map<nat, EntryRow>, lastSaved: seq<nat>,
    duplicates: nat, casesCreated: nat, entriesCreated: nat)

  /** The store, `last_entries_saved` and the counter increments after `save_everything` */
  function Flush(cases: map<nat, CaseRow>, entries: map<nat, EntryRow>, lastSaved: seq<nat>, batch: seq<Candidate>): (r: FlushResult)
    ensures r.duplicates + r.entriesCreated == |batch|
  {
    var survivors := Survivors(entries, lastSaved, batch);
    FlushResult(WrittenCases(cases, survivors), entries + EntryRowsOf(survivors),
                lastSaved + EntryIdSeq(survivors), |batch| - |survivors|,
                |CreatedCases(cases, survivors)|, |survivors|)
  }

  // ---------------------------------------------------------------------------
  // what a flush writes
  // ---------------------------------------------------------------------------

  /** A candidate that is the first of its entry id, neither flushed before nor stored, is written */
  lemma FlushWritesFresh(cases: map<nat, CaseRow>, entries: map<nat, EntryRow>, lastSaved: seq<nat>,
                         batch: seq<Candidate>, i: nat)
    requires i < |batch| && batch[i].entryId !in EntryIds(batch[..i])
    requires batch[i].entryId !in lastSaved && batch[i].entryId !in entries
    ensures var f := Flush(cases, entries, lastSaved, batch);
      batch[i].entryId in f.entries && f.entries[batch[i].entryId] == EntryRowOf(batch[i])
  {
    var survivors := Survivors(entries, lastSaved, batch);
    FirstOfKeepsFirst(batch, i);
    assert batch[i] in survivors;
    var k :| 0 <= k < |survivors| && survivors[k] == batch[i];
    EntryRowsOfAt(survivors, k);
  }

  /**
   * No stored entry is written again: the new entry ids are disjoint from the stored
   * ones, one per survivor, and `last_entries_saved` grows by exactly the survivors' ids.
   */
  lemma FlushKeepsStored(cases: map<nat, CaseRow>, entries: map<nat, EntryRow>, lastSaved: seq<nat>, batch: seq<Candidate>)
    ensures var f := Flush(cases, entries, lastSaved, batch);
      var survivors := Survivors(entries, lastSaved, batch);
      && f.entries.Keys == entries.Keys + EntryIds(survivors)
      && entries.Keys !! EntryIds(survivors)
      && (forall id :: id in entries ==> f.entries[id] == entries[id])
      && f.entriesCreated == |EntryIds(survivors)|
      && f.lastSaved == lastSaved + EntryIdSeq(survivors)
  {
    DistinctEntryIdsCount(Survivors(entries, lastSaved, batch));
  }

  lemma WrittenCasesKeys(cases: map<nat, CaseRow>, survivors: seq<Candidate>)
    ensures WrittenCases(cases, survivors).Keys == cases.Keys + CaseIds(survivors)
    ensures |CreatedCases(cases, survivors)| == |CaseIds(survivors) - cases.Keys|
  {
    var perCase := LastPerCase(survivors);
    var created := CreatedCases(cases, survivors);
    NewCasesDistinct(perCase, cases.Keys);
    assert CaseIds(created) == CaseIds(survivors) - cases.Keys;
    DistinctCaseIdsCount(created);
  }

  /** A case the survivors do not mention is left as it was */
  lemma WrittenCasesUntouched(cases: map<nat, CaseRow>, survivors: seq<Candidate>, id: nat)
    requires id in cases && id !in CaseIds(survivors)
    ensures id in WrittenCases(cases, survivors) && WrittenCases(cases, survivors)[id] == cases[id]
  {
    UpdateTitlesEffect(cases, LastPerCase(survivors));
  }

  /** The last survivor of a case that is not stored creates it */
  lemma WrittenCasesCreated(cases: map<nat, CaseRow>, survivors: seq<Candidate>, i: nat)
    requires i < |survivors| && IsLastOfCase(survivors, i) && survivors[i].caseId !in cases
    ensures var id := survivors[i].caseId;
      id in WrittenCases(cases, survivors) && WrittenCases(cases, survivors)[id] == CaseRowOf(survivors[i])
  {
    var created := CreatedCases(cases, survivors);
    LastPerCaseKeepsLast(survivors, i);
    NewCasesDistinct(LastPerCase(survivors), cases.Keys);
    assert survivors[i] in created;
    var k :| 0 <= k < |created| && created[k] == survivors[i];
    CaseRowsOfAt(created, k);
  }

  /**
   * The last survivor of a stored case sets its title, and its number when the title
   * changed; the name it carries is not written.
   */
  lemma WrittenCasesUpdated(cases: map<nat, CaseRow>, survivors: seq<Candidate>, i: nat)
    requires i < |survivors| && IsLastOfCase(survivors, i) && survivors[i].caseId in cases
    ensures var id := survivors[i].caseId;
      var was := cases[id];
      id in WrittenCases(cases, survivors) &&
      WrittenCases(cases, survivors)[id] ==
        was.(title := survivors[i].title,
             number := if was.title == survivors[i].title then was.number else survivors[i].caseNumber)
  {
    var perCase := LastPerCase(survivors);
    UpdateTitlesEffect(cases, perCase);
    LastPerCaseKeepsLast(survivors, i);
    var k :| 0 <= k < |perCase| && perCase[k] == survivors[i];
    assert survivors[i].caseId !in CaseIds(CreatedCases(cases, survivors));
  }

  /** A flush keeps every entry attached to a stored case */
  lemma FlushIntegral(cases: map<nat, CaseRow>, entries: map<nat, EntryRow>, lastSaved: seq<nat>, batch: seq<Candidate>)
    requires Integral(cases, entries)
    ensures var f := Flush(cases, entries, lastSaved, batch); Integral(f.cases, f.entries)
  {
    var survivors := Survivors(entries, lastSaved, batch);
    var written := WrittenCases(cases, survivors);
    var added := EntryRowsOf(survivors);
    WrittenCasesKeys(cases, survivors);
    forall id | id in entries + added ensures (entries + added)[id].caseId in written {
      if id in added {
        assert added[id].caseId in CaseIds(survivors);
      } else {
        assert entries[id].caseId in cases;
      }
    }
  }

  /** What a court has flushed is stored: `last_entries_saved` never names an unstored entry */
  lemma FlushRecordsStored(cases: map<nat, CaseRow>, entries: map<nat, EntryRow>, lastSaved: seq<nat>, batch: seq<Candidate>)
    requires Elements(lastSaved) <= entries.Keys
    ensures var f := Flush(cases, entries, lastSaved, batch); Elements(f.lastSaved) <= f.entries.Keys
  {
    var f := Flush(cases, entries, lastSaved, batch);
    var survivors := Survivors(entries, lastSaved, batch);
    forall id | id in f.lastSaved ensures id in f.entries {
      if id !in lastSaved {
        var k :| 0 <= k < |f.lastSaved| && f.lastSaved[k] == id;
        assert survivors[k - |lastSaved|] in survivors;
      }
    }
  }

  /**
   * Flushing a batch again, whatever the court has flushed since, writes nothing: every
   * entry id of the batch is already stored.
   */
  lemma FlushReplay(cases: map<nat, CaseRow>, entries: map<nat, EntryRow>, lastSaved: seq<nat>,
                    batch: seq<Candidate>, later: seq<nat>)
    requires Elements(lastSaved) <= entries.Keys
    ensures var f := Flush(cases, entries, lastSaved, batch);
      var g := Flush(f.cases, f.entries, later, batch);
      g.cases == f.cases && g.entries == f.entries && g.casesCreated == 0 && g.entriesCreated == 0
      && g.duplicates == |batch|
  {
    var f := Flush(cases, entries, lastSaved, batch);
    ReplaySurvivesNothing(cases, entries, lastSaved, batch, later);
    WritesNothing(f.cases, f.entries);
  }

  /** After a flush every entry id of the batch is stored, as long as `last_entries_saved` was */
  lemma FlushStoresAll(cases: map<nat, CaseRow>, entries: map<nat, EntryRow>, lastSaved: seq<nat>, batch: seq<Candidate>)
    requires Elements(lastSaved) <= entries.Keys
    ensures var f := Flush(cases, entries, lastSaved, batch);
      forall x :: x in batch ==> x.entryId in f.entries
  {
    var f := Flush(cases, entries, lastSaved, batch);
    var survivors := Survivors(entries, lastSaved, batch);
    var unique := FirstOf(batch);
    assert f.entries.Keys == entries.Keys + EntryIds(survivors);
    forall x | x in batch ensures x.entryId in f.entries {
      assert x.entryId in EntryIds(unique);
      var y :| y in unique && y.entryId == x.entryId;
      if y.entryId !in lastSaved && y.entryId !in entries {
        assert y in survivors;
      }
    }
  }

  /** A batch whose entries are all stored writes nothing and counts every candidate a duplicate */
  lemma FlushStoredBatch(cases: map<nat, CaseRow>, entries: map<nat, EntryRow>, lastSaved: seq<nat>, batch: seq<Candidate>)
    requires forall x :: x in batch ==> x.entryId in entries
    ensures var f := Flush(cases, entries, lastSaved, batch);
      && f.cases == cases && f.entries == entries && f.lastSaved == lastSaved
      && f.casesCreated == 0 && f.entriesCreated == 0 && f.duplicates == |batch|
  {
    var unique := FirstOf(batch);
    WithoutIdsAll(WithoutIds(unique, Elements(lastSaved)), entries.Keys);
    WritesNothing(cases, entries);
    assert lastSaved + [] == lastSaved;
  }

  lemma WritesNothing(cases: map<nat, CaseRow>, entries: map<nat, EntryRow>)
    ensures WrittenCases(cases, []) == cases && CreatedCases(cases, []) == []
    ensures entries + EntryRowsOf([]) == entries && EntryIdSeq([]) == []
  {
    assert LastPerCase([]) == [];
    assert cases + map[] == cases;
  }

  lemma ReplaySurvivesNothing(cases: map<nat, CaseRow>, entries: map<nat, EntryRow>, lastSaved: seq<nat>,
                              batch: seq<Candidate>, later: seq<nat>)
    requires Elements(lastSaved) <= entries.Keys
    ensures Survivors(Flush(cases, entries, lastSaved, batch).entries, later, batch) == []
  {
    var stored := Flush(cases, entries, lastSaved, batch).entries;
    var survivors := Survivors(entries, lastSaved, batch);
    assert stored.Keys == entries.Keys + EntryIds(survivors);
    var unique := FirstOf(batch);
    forall x | x in unique ensures x.entryId in stored {
      if x.entryId !in lastSaved && x.entryId !in entries {
        assert x in survivors;
      }
    }
    WithoutIdsAll(WithoutIds(unique, Elements(later)), stored.Keys);
  }

  lemma {:induction false} WithoutIdsAll(b: seq<Candidate>, ids: set<nat>)
    requires forall x :: x in b ==> x.entryId in ids
    ensures WithoutIds(b, ids) == []
  {
    if b != [] {
      var init := b[..|b| - 1];
      assert b == init + [b[|b| - 1]];
      WithoutIdsAll(init, ids);
    }
  }

  /** Only membership in `stored` of the candidates' own case ids matters */
  lemma {:induction false} NewCasesAgree(s: seq<Candidate>, stored: set<nat>, other: set<nat>)
    requires forall x :: x in s ==> (x.caseId in stored <==> x.caseId in other)
    ensures NewCases(s, stored) == NewCases(s, other)
  {
    if s != [] {
      var init := s[..|s| - 1];
      assert s == init + [s[|s| - 1]];
      NewCasesAgree(init, stored, other);
    }
  }

  // ---------------------------------------------------------------------------
  // the store and save_everything
  // ---------------------------------------------------------------------------

  /** The case and entry tables, keyed by their integer ids */
  class Store {
    var cases: map<nat, CaseRow>
    var entries: map<nat, EntryRow>

    predicate Valid()
      reads this
    {
      Integral(cases, entries)
    }

    constructor ()
      ensures Valid() && cases == map[] && entries == map[]
    {
      cases := map[];
      entries := map[];
    }

    /** `Entry.objects.filter(id__in=ids)`: the ids among `ids` that are stored */
    method StoredEntryIds(ids: seq<nat>) returns (found: set<nat>)
      ensures forall id :: id in found <==> id in ids && id in entries
    {
      found := set id | id in ids && id in entries;
    }

    /** `Case.objects.filter(id__in=ids)`, as the set of its keys */
    method StoredCaseIds(ids: seq<nat>) returns (found: set<nat>)
      ensures forall id :: id in found <==> id in ids && id in cases
    {
      found := set id | id in ids && id in cases;
    }

    /** `case.save(update_fields=['title', 'name', 'number'])` with only title and number changed */
    method UpdateCase(id: nat, title: string, number: string)
      requires id in cases
      modifies this
      ensures cases == old(cases)[id := old(cases)[id].(title := title, number := number)]
      ensures entries == old(entries)
    {
      cases := cases[id := cases[id].(title := title, number := number)];
    }

    /** `Case.objects.bulk_create`: the primary keys must be new and distinct */
    method BulkCreateCases(rows: seq<Candidate>)
      requires DistinctCaseIds(rows)
      requires forall x :: x in rows ==> x.caseId !in cases
      modifies this
      ensures cases == old(cases) + CaseRowsOf(rows)
      ensures entries == old(entries)
    {
      cases := cases + CaseRowsOf(rows);
    }

    /** `Entry.objects.bulk_create`: new, distinct primary keys, each entry's case stored */
    method BulkCreateEntries(rows: seq<Candidate>)
      requires DistinctEntryIds(rows)
      requires forall x :: x in rows ==> x.entryId !in entries && x.caseId in cases
      modifies this
      ensures entries == old(entries) + EntryRowsOf(rows)
      ensures cases == old(cases)
    {
      entries := entries + EntryRowsOf(rows);
    }
  }

  /** Lines 150-153 */
  method DropRepeatedIds(batch: seq<Candidate>) returns (unique: seq<Candidate>)
    ensures unique == FirstOf(batch)
  {
    unique := [];
    var seen: set<nat> := {};
    var i := 0;
    while i < |batch|
      invariant 0 <= i <= |batch|
      invariant unique == FirstOf(batch[..i])
      invariant seen == EntryIds(batch[..i])
    {
      unique, seen := KeepIfNew(batch[..i], batch[i], unique, seen);
      assert batch[..i + 1] == batch[..i] + [batch[i]];
      i := i + 1;
    }
    assert batch[..i] == batch;
  }

  /** One candidate of `DropRepeatedIds`: kept when its entry id has not been seen */
  method KeepIfNew(b: seq<Candidate>, x: Candidate, unique: seq<Candidate>, seen: set<nat>)
    returns (unique': seq<Candidate>, seen': set<nat>)
    requires unique == FirstOf(b) && seen == EntryIds(b)
    ensures unique' == FirstOf(b + [x]) && seen' == EntryIds(b + [x])
  {
    FirstOfSnoc(b, x);
    EntryIdsSnoc(b, x);
    unique' := if x.entryId !in seen then unique + [x] else unique;
    seen' := seen + {x.entryId};
  }

  /** Lines 158 and 171-172: keep the candidates whose entry id is not in `ids` */
  method DropIds(b: seq<Candidate>, ids: set<nat>) returns (r: seq<Candidate>)
    ensures r == WithoutIds(b, ids)
  {
    r := [];
    var i := 0;
    while i < |b|
      invariant 0 <= i <= |b|
      invariant r == WithoutIds(b[..i], ids)
    {
      assert b[..i + 1] == b[..i] + [b[i]];
      assert b[..i + 1][..i] == b[..i];
      if b[i].entryId !in ids {
        r := r + [b[i]];
      }
      i := i + 1;
    }
    assert b[..i] == b;
  }

  /** Lines 179-180 */
  method KeepLastPerCase(b: seq<Candidate>) returns (r: seq<Candidate>)
    ensures r == LastPerCase(b)
  {
    r := [];
    var i := 0;
    while i < |b|
      invariant 0 <= i <= |b|
      invariant r + LastPerCase(b[i..]) == LastPerCase(b)
    {
      assert b[i..][1..] == b[i + 1..];
      if b[i].caseId !in CaseIds(b[i + 1..]) {
        r := r + [b[i]];
      }
      i := i + 1;
    }
  }

  /** Lines 199-203 */
  method DropStoredCases(perCase: seq<Candidate>, stored: set<nat>) returns (r: seq<Candidate>)
    ensures r == NewCases(perCase, stored)
  {
    r := [];
    var i := 0;
    while i < |perCase|
      invariant 0 <= i <= |perCase|
      invariant r == NewCases(perCase[..i], stored)
    {
      assert perCase[..i + 1] == perCase[..i] + [perCase[i]];
      assert perCase[..i + 1][..i] == perCase[..i];
      if perCase[i].caseId !in stored {
        r := r + [perCase[i]];
      }
      i := i + 1;
    }
    assert perCase[..i] == perCase;
  }

  lemma CaseIdInSeq(s: seq<Candidate>, x: Candidate)
    requires x in s
    ensures x.caseId in CaseIdSeq(s)
  {
    var k :| 0 <= k < |s| && s[k] == x;
    assert CaseIdSeq(s)[k] == x.caseId;
  }

  lemma WrittenIntegral(cases: map<nat, CaseRow>, entries: map<nat, EntryRow>, survivors: seq<Candidate>)
    requires Integral(cases, entries)
    ensures Integral(WrittenCases(cases, survivors), entries + EntryRowsOf(survivors))
  {
    WrittenCasesKeys(cases, survivors);
  }

  /** Lines 188-195: the title loop over `cases_to_save` */
  method UpdateStoredTitles(store: Store, perCase: seq<Candidate>, existing: set<nat>)
    requires forall x :: x in perCase ==> (x.caseId in existing <==> x.caseId in store.cases)
    modifies store
    ensures store.cases == UpdateTitles(old(store.cases), perCase)
    ensures store.entries == old(store.entries)
  {
    var i := 0;
    while i < |perCase|
      invariant 0 <= i <= |perCase|
      invariant store.cases == UpdateTitles(old(store.cases), perCase[..i])
      invariant store.entries == old(store.entries)
    {
      var x := perCase[i];
      if x.caseId in existing && store.cases[x.caseId].title != x.title {
        store.UpdateCase(x.caseId, x.title, x.caseNumber);
      }
      assert perCase[..i + 1][..i] == perCase[..i];
      i := i + 1;
    }
    assert perCase[..i] == perCase;
  }

  /** Lines 177-226: update and create the survivors' cases, then create their entries */
  method WriteSurvivors(store: Store, survivors: seq<Candidate>) returns (created: nat)
    requires store.Valid() && DistinctEntryIds(survivors)
    requires forall x :: x in survivors ==> x.entryId !in store.entries
    modifies store
    ensures store.Valid()
    ensures store.cases == WrittenCases(old(store.cases), survivors)
    ensures store.entries == old(store.entries) + EntryRowsOf(survivors)
    ensures created == |CreatedCases(old(store.cases), survivors)|
  {
    var perCase := KeepLastPerCase(survivors);
    var existing := store.StoredCaseIds(CaseIdSeq(survivors));
    forall x | x in perCase ensures x.caseId in existing <==> x.caseId in store.cases {
      CaseIdInSeq(survivors, x);
    }
    NewCasesAgree(perCase, existing, store.cases.Keys);
    NewCasesDistinct(perCase, store.cases.Keys);
    WrittenCasesKeys(store.cases, survivors);
    WrittenIntegral(store.cases, store.entries, survivors);
    UpdateStoredTitles(store, perCase, existing);
    var newCases := DropStoredCases(perCase, existing);
    store.BulkCreateCases(newCases);
    created := |newCases|;
    store.BulkCreateEntries(survivors);
  }

  /** Lines 165-173: drop the candidates whose entry id is stored */
  method DropStored(store: Store, unique: seq<Candidate>, unsaved: seq<Candidate>) returns (kept: seq<Candidate>)
    requires forall x :: x in unsaved ==> x in unique
    ensures kept == WithoutIds(unsaved, store.entries.Keys)
  {
    var stored := store.StoredEntryIds(EntryIdSeq(unique));
    forall x | x in unsaved ensures x.entryId in stored <==> x.entryId in store.entries {
      var k :| 0 <= k < |unique| && unique[k] == x;
      assert EntryIdSeq(unique)[k] == x.entryId;
    }
    WithoutIdsAgree(unsaved, stored, store.entries.Keys);
    kept := DropIds(unsaved, stored);
  }

  /** Lines 174-175: `last_entries_saved.append(x[11])` for every survivor */
  method RecordSaved(lastSaved: seq<nat>, kept: seq<Candidate>) returns (saved: seq<nat>)
    ensures saved == lastSaved + EntryIdSeq(kept)
  {
    saved := lastSaved;
    var i := 0;
    while i < |kept|
      invariant 0 <= i <= |kept|
      invariant saved == lastSaved + EntryIdSeq(kept[..i])
    {
      assert EntryIdSeq(kept[..i + 1]) == EntryIdSeq(kept[..i]) + [kept[i].entryId];
      saved := saved + [kept[i].entryId];
      i := i + 1;
    }
    assert kept[..i] == kept;
  }

  lemma FlushOf(cases: map<nat, CaseRow>, entries: map<nat, EntryRow>, lastSaved: seq<nat>, batch: seq<Candidate>,
                survivors: seq<Candidate>)
    requires survivors == WithoutIds(WithoutIds(FirstOf(batch), Elements(lastSaved)), entries.Keys)
    ensures var f := Flush(cases, entries, lastSaved, batch);
      && f.cases == WrittenCases(cases, survivors)
      && f.entries == entries + EntryRowsOf(survivors)
      && f.lastSaved == lastSaved + EntryIdSeq(survivors)
      && f.casesCreated == |CreatedCases(cases, survivors)|
      && f.entriesCreated == |survivors|
  {
    assert Survivors(entries, lastSaved, batch) == survivors;
  }

  /**
   * `save_everything(last_entries_saved, entries_to_save, ...)`: the store, the court's
   * `last_entries_saved` and the three counters end as `Flush` says.
   */
  method SaveEverything(store: Store, lastSaved: seq<nat>, batch: seq<Candidate>,
                        duplicates: nat, casesTotal: nat, entriesTotal: nat)
    returns (saved: seq<nat>, duplicates': nat, casesTotal': nat, entriesTotal': nat)
    requires store.Valid()
    modifies store
    ensures store.Valid()
    ensures var f := Flush(old(store.cases), old(store.entries), lastSaved, batch);
      && store.cases == f.cases && store.entries == f.entries && saved == f.lastSaved
      && duplicates' == duplicates + f.duplicates
      && casesTotal' == casesTotal + f.casesCreated
      && entriesTotal' == entriesTotal + f.entriesCreated
  {
    ghost var cases0, entries0 := store.cases, store.entries;
    var unique := DropRepeatedIds(batch);
    var unsaved := DropIds(unique, Elements(lastSaved));
    duplicates' := duplicates + (|batch| - |unsaved|);
    saved, casesTotal', entriesTotal' := lastSaved, casesTotal, entriesTotal;
    var kept: seq<Candidate> := [];
    if unsaved != [] {
      kept := DropStored(store, unique, unsaved);
      duplicates' := duplicates' + (|unsaved| - |kept|);
      saved := RecordSaved(lastSaved, kept);
      if kept != [] {
        WithoutIdsDistinct(unique, Elements(lastSaved));
        WithoutIdsDistinct(unsaved, store.entries.Keys);
        var created := WriteSurvivors(store, kept);
        casesTotal' := casesTotal + created;
        entriesTotal' := entriesTotal + |kept|;
      }
    }
    FlushOf(cases0, entries0, lastSaved, batch, kept);
    if kept == [] {
      WritesNothing(cases0, entries0);
    }
  }
}
