/**
 * The driver of `trackcases` (`Command.handle`): the feed-level checks of each court,
 * the item loop that batches accepted candidates and flushes them every 500, the
 * final flush of each court, and the watermark update after it.
 *
 * The description is split in two. `Items` says how the items of a feed are sorted
 * and cut into batches, which does not depend on the store; `SaveAll` says what the
 * successive `save_everything` calls do with those batches. `IngestFeed` and `Run`
 * put them together; `IngestCourt` and `Handle` are the loops, proved to end in the
 * state they describe.
 */
module Ingest {
  import opened Wrappers
  import opened Text
  import opened Courts
  import opened Track
  import opened Batch

  /** `len(entries_to_save) == 500` triggers a flush */
  const FlushSize: nat := 500

  /** The seven counters the command reports */
  datatype Totals = Totals(
    cases: nat, entries: nat, duplicates: nat, entriesOld: nat, entriesBroken: nat,
    courtsBroken: nat, courtsOld: nat)

  const NoTotals := Totals(0, 0, 0, 0, 0, 0, 0)

  /** A parsed feed: its first `<title>`, its `<lastBuildDate>` and its `<item>`s */
  datatype Feed = Feed(title: Option<string>, buildDate: DateField, items: seq<RawItem>)

  /** The outcome of downloading a court's feed */
  datatype Download = Failed | Downloaded(feed: Feed)

  // ---------------------------------------------------------------------------
  // how the items of one feed are batched
  // ---------------------------------------------------------------------------

  /**
   * What the item loop has done so far: the candidates waiting in `entries_to_save`,
   * the full batches already handed to `save_everything`, the old and broken counts,
   * and whether an uncaught error has ended the run.
   */
  datatype Batching = Batching(pending: seq<Candidate>, flushed: seq<seq<Candidate>>, stale: nat, broken: nat, fatal: bool)

  const NoBatches := Batching([], [], 0, 0, false)

  /** The loop body once the item's outcome is known */
  function StepOn(b: Batching, o: ItemOutcome): Batching {
    if b.fatal then b
    else
      match o
      case Fatal => b.(fatal := true)
      case Old => b.(stale := b.stale + 1)
      case Broken(_) => b.(broken := b.broken + 1)
      case Accepted(c) =>
        if |b.pending| + 1 == FlushSize then b.(pending := [], flushed := b.flushed + [b.pending + [c]])
        else b.(pending := b.pending + [c])
  }

  /** The item loop over `items`, in feed order (lines 371-455) */
  function Items(extract: RawItem -> ItemOutcome, items: seq<RawItem>): Batching {
    if items == [] then NoBatches
    else
      StepOn(Items(extract, items[..|items| - 1]), extract(items[|items| - 1]))
  }

  /** The item decision of a court whose watermark is `lastUpdated` */
  function Classifier(courtId: nat, kind: CourtType, lastUpdated: int, hash: string -> nat): RawItem -> ItemOutcome {
    item => ExtractItem(courtId, kind, lastUpdated, item, hash)
  }

  /** How a court sorts items, given its watermark */
  type Rule = int -> (RawItem -> ItemOutcome)

  function CourtRule(courtId: nat, kind: CourtType, hash: string -> nat): Rule {
    lastUpdated => Classifier(courtId, kind, lastUpdated, hash)
  }

  /** Which rule a court applies: its id and type pick it */
  type Rules = (nat, CourtType) -> Rule

  /** The rules of `trackcases`: every court classifies its items with `ExtractItem` */
  function Tracker(hash: string -> nat): Rules {
    (id, kind) => CourtRule(id, kind, hash)
  }

  /** Every batch handed to `save_everything` for a court: the full ones, then the rest unless the run ended */
  function Batches(b: Batching): seq<seq<Candidate>> {
    if b.fatal then b.flushed else b.flushed + [b.pending]
  }

  /** Once the loop has stopped, later items change nothing */
  lemma {:induction false} ItemsAfterFatal(extract: RawItem -> ItemOutcome, items: seq<RawItem>, i: nat)
    requires i <= |items| && Items(extract, items[..i]).fatal
    ensures Items(extract, items) == Items(extract, items[..i])
  {
    if i < |items| {
      var init := items[..|items| - 1];
      assert init[..i] == items[..i];
      ItemsAfterFatal(extract, init, i);
    } else {
      assert items[..i] == items;
    }
  }

  // ---------------------------------------------------------------------------
  // a reference account of the items
  // ---------------------------------------------------------------------------

  /** The outcomes of the items the loop looks at: all of them, up to and including the first `Fatal` */
  function Outcomes(extract: RawItem -> ItemOutcome, items: seq<RawItem>): (r: seq<ItemOutcome>)
    ensures |r| <= |items|
    ensures Fatal !in r ==> |r| == |items|
    ensures forall i :: 0 <= i < |r| - 1 ==> r[i] != Fatal
  {
    if items == [] then []
    else
      var before := Outcomes(extract, items[..|items| - 1]);
      if Fatal in before then before
      else before + [extract(items[|items| - 1])]
  }

  function AcceptedIn(os: seq<ItemOutcome>): seq<Candidate> {
    if os == [] then []
    else AcceptedIn(os[..|os| - 1]) + (if os[|os| - 1].Accepted? then [os[|os| - 1].candidate] else [])
  }

  function CountOld(os: seq<ItemOutcome>): nat {
    if os == [] then 0 else CountOld(os[..|os| - 1]) + (if os[|os| - 1] == Old then 1 else 0)
  }

  function CountBroken(os: seq<ItemOutcome>): nat {
    if os == [] then 0 else CountBroken(os[..|os| - 1]) + (if os[|os| - 1].Broken? then 1 else 0)
  }

  /** Every outcome the loop looks at is accepted, old or broken, or is the `Fatal` it stops at */
  lemma {:induction false} OutcomesPartition(os: seq<ItemOutcome>)
    requires forall i :: 0 <= i < |os| - 1 ==> os[i] != Fatal
    ensures |AcceptedIn(os)| + CountOld(os) + CountBroken(os) + (if Fatal in os then 1 else 0) == |os|
  {
    if os != [] {
      var init := os[..|os| - 1];
      assert os == init + [os[|os| - 1]];
      OutcomesPartition(init);
    }
  }

  function Concat(batches: seq<seq<Candidate>>): seq<Candidate> {
    if batches == [] then [] else Concat(batches[..|batches| - 1]) + batches[|batches| - 1]
  }

  lemma ConcatSnoc(batches: seq<seq<Candidate>>, b: seq<Candidate>)
    ensures Concat(batches + [b]) == Concat(batches) + b
  {
    assert (batches + [b])[..|batches|] == batches;
  }

  /** The invariant of the item loop, against the outcomes it has looked at */
  predicate Accounted(b: Batching, os: seq<ItemOutcome>) {
    && Concat(b.flushed) + b.pending == AcceptedIn(os)
    && |b.pending| < FlushSize
    && (forall k :: 0 <= k < |b.flushed| ==> |b.flushed[k]| == FlushSize)
    && b.stale == CountOld(os)
    && b.broken == CountBroken(os)
    && (b.fatal <==> Fatal in os)
  }

  lemma StepAccounted(b: Batching, os: seq<ItemOutcome>, o: ItemOutcome)
    requires Accounted(b, os) && Fatal !in os
    ensures Accounted(StepOn(b, o), os + [o])
  {
    var os' := os + [o];
    assert os'[..|os'| - 1] == os;
    if o.Accepted? && |b.pending| + 1 == FlushSize {
      ConcatSnoc(b.flushed, b.pending + [o.candidate]);
    }
  }

  /**
   * The item loop hands every accepted candidate, in feed order and exactly once, to a
   * flush of exactly 500 or leaves it pending (fewer than 500); it counts each old and
   * each broken item once; and it stops at the first item whose date cannot be parsed.
   */
  lemma {:induction false} ItemsAccounted(extract: RawItem -> ItemOutcome, items: seq<RawItem>)
    ensures Accounted(Items(extract, items), Outcomes(extract, items))
  {
    if items != [] {
      var init := items[..|items| - 1];
      var before := Outcomes(extract, init);
      ItemsAccounted(extract, init);
      if Fatal !in before {
        StepAccounted(Items(extract, init), before, extract(items[|items| - 1]));
      }
    }
  }

  // ---------------------------------------------------------------------------
  // what the flushes of one court do
  // ---------------------------------------------------------------------------

  /** The store of a court's first flush: `last_entries_saved` starts empty for every court */
  function Start(cases: map<nat, CaseRow>, entries: map<nat, EntryRow>): FlushResult {
    FlushResult(cases, entries, [], 0, 0, 0)
  }

  /** One `save_everything` call; `Flush` in the model, a parameter where only the shape matters */
  type Flusher = (map<nat, CaseRow>, map<nat, EntryRow>, seq<nat>, seq<Candidate>) -> FlushResult

  /** The successive `save_everything` calls on `batches`, with their counters summed */
  function SaveAll(flush: Flusher, start: FlushResult, batches: seq<seq<Candidate>>): FlushResult {
    if batches == [] then start
    else
      var s := SaveAll(flush, start, batches[..|batches| - 1]);
      var f := flush(s.cases, s.entries, s.lastSaved, batches[|batches| - 1]);
      FlushResult(f.cases, f.entries, f.lastSaved, s.duplicates + f.duplicates,
                  s.casesCreated + f.casesCreated, s.entriesCreated + f.entriesCreated)
  }

  /** A flush step that counts each candidate of its batch once, as a duplicate or as an entry created */
  ghost predicate Counting(flush: Flusher) {
    forall cases, entries, lastSaved, batch {:trigger flush(cases, entries, lastSaved, batch)} ::
      flush(cases, entries, lastSaved, batch).duplicates + flush(cases, entries, lastSaved, batch).entriesCreated == |batch|
  }

  lemma FlushCounting()
    ensures Counting(Flush)
  {
  }

  /** Every candidate handed to a counting flush is counted once over all the batches */
  lemma {:induction false} SaveAllCounts(flush: Flusher, start: FlushResult, batches: seq<seq<Candidate>>)
    requires Counting(flush)
    ensures var r := SaveAll(flush, start, batches);
      r.duplicates + r.entriesCreated == start.duplicates + start.entriesCreated + |Concat(batches)|
  {
    if batches != [] {
      var n := |batches| - 1;
      SaveAllCounts(flush, start, batches[..n]);
      ConcatSnoc(batches[..n], batches[n]);
      assert batches[..n] + [batches[n]] == batches;
    }
  }

  /** A run of `save_everything` calls counts each flushed candidate once */
  lemma SaveAllCountsFlush(start: FlushResult, batches: seq<seq<Candidate>>)
    ensures var r := SaveAll(Flush, start, batches);
      r.duplicates + r.entriesCreated == start.duplicates + start.entriesCreated + |Concat(batches)|
  {
    FlushCounting();
    SaveAllCounts(Flush, start, batches);
  }

  /** A fresh store state: entries attached to cases, `last_entries_saved` stored */
  predicate Sound(s: FlushResult) {
    Integral(s.cases, s.entries) && Elements(s.lastSaved) <= s.entries.Keys
  }

  /** Flushing keeps the store sound and never drops a stored entry */
  lemma {:induction false} SaveAllSound(start: FlushResult, batches: seq<seq<Candidate>>)
    requires Sound(start)
    ensures var r := SaveAll(Flush, start, batches); Sound(r) && start.entries.Keys <= r.entries.Keys
  {
    if batches != [] {
      var s := SaveAll(Flush, start, batches[..|batches| - 1]);
      var last := batches[|batches| - 1];
      SaveAllSound(start, batches[..|batches| - 1]);
      FlushIntegral(s.cases, s.entries, s.lastSaved, last);
      FlushRecordsStored(s.cases, s.entries, s.lastSaved, last);
      FlushKeepsStored(s.cases, s.entries, s.lastSaved, last);
    }
  }

  /** Every candidate of every batch has its entry stored */
  predicate AllStored(batches: seq<seq<Candidate>>, entries: map<nat, EntryRow>) {
    forall k, x :: 0 <= k < |batches| && x in batches[k] ==> x.entryId in entries
  }

  /** One flush stores its batch and keeps what was stored */
  lemma FlushStores(s: FlushResult, batch: seq<Candidate>)
    requires Elements(s.lastSaved) <= s.entries.Keys
    ensures var f := Flush(s.cases, s.entries, s.lastSaved, batch);
      s.entries.Keys <= f.entries.Keys && forall x :: x in batch ==> x.entryId in f.entries
  {
    var f := Flush(s.cases, s.entries, s.lastSaved, batch);
    assert s.entries.Keys <= f.entries.Keys by {
      FlushKeepsStored(s.cases, s.entries, s.lastSaved, batch);
    }
    assert forall x :: x in batch ==> x.entryId in f.entries by {
      FlushStoresAll(s.cases, s.entries, s.lastSaved, batch);
    }
  }

  /** Every candidate flushed is stored afterwards */
  lemma {:induction false} SaveAllStoresAll(start: FlushResult, batches: seq<seq<Candidate>>)
    requires Sound(start)
    ensures AllStored(batches, SaveAll(Flush, start, batches).entries)
  {
    if batches != [] {
      var n := |batches| - 1;
      var init := batches[..n];
      var s := SaveAll(Flush, start, init);
      SaveAllStoresAll(start, init);
      SaveAllSound(start, init);
      assert batches == init + [batches[n]];
      SaveAllSnoc(Flush, start, init, batches[n]);
      StoresAllStep(batches, s, SaveAll(Flush, start, batches).entries);
    }
  }

  /** The step of `SaveAllStoresAll`: the last batch's flush on a sound state */
  lemma StoresAllStep(batches: seq<seq<Candidate>>, s: FlushResult, after: map<nat, EntryRow>)
    requires batches != [] && Sound(s) && AllStored(batches[..|batches| - 1], s.entries)
    requires after == Flush(s.cases, s.entries, s.lastSaved, batches[|batches| - 1]).entries
    ensures AllStored(batches, after)
  {
    FlushStores(s, batches[|batches| - 1]);
    AllStoredSnoc(batches, s.entries, after);
  }

  /** One batch more is all stored when the earlier ones stay stored and the new one is */
  lemma AllStoredSnoc(batches: seq<seq<Candidate>>, before: map<nat, EntryRow>, after: map<nat, EntryRow>)
    requires batches != [] && AllStored(batches[..|batches| - 1], before) && before.Keys <= after.Keys
    requires forall x :: x in batches[|batches| - 1] ==> x.entryId in after
    ensures AllStored(batches, after)
  {
    var n := |batches| - 1;
    forall k, x: Candidate | 0 <= k < |batches| && x in batches[k] ensures x.entryId in after {
      if k < n {
        assert batches[k] == batches[..n][k];
      }
    }
  }

  lemma AllStoredPrefix(batches: seq<seq<Candidate>>, entries: map<nat, EntryRow>, n: nat)
    requires n <= |batches| && AllStored(batches, entries)
    ensures AllStored(batches[..n], entries)
  {
    forall k, x: Candidate | 0 <= k < n && x in batches[..n][k] ensures x.entryId in entries {
      assert batches[..n][k] == batches[k];
    }
  }

  /** Batches whose entries are all stored already change nothing */
  lemma {:induction false} SaveAllStored(start: FlushResult, batches: seq<seq<Candidate>>)
    requires AllStored(batches, start.entries)
    ensures var r := SaveAll(Flush, start, batches);
      && r.cases == start.cases && r.entries == start.entries && r.lastSaved == start.lastSaved
      && r.casesCreated == start.casesCreated && r.entriesCreated == start.entriesCreated
  {
    if batches != [] {
      var n := |batches| - 1;
      AllStoredPrefix(batches, start.entries, n);
      SaveAllStored(start, batches[..n]);
      var s := SaveAll(Flush, start, batches[..n]);
      assert forall x :: x in batches[n] ==> x.entryId in s.entries;
      FlushStoredBatch(s.cases, s.entries, s.lastSaved, batches[n]);
    }
  }

  // ---------------------------------------------------------------------------
  // one court
  // ---------------------------------------------------------------------------

  datatype CourtResult = CourtResult(
    cases: map<nat, CaseRow>, entries: map<nat, EntryRow>, totals: Totals,
    lastUpdated: Option<int>, batches: seq<seq<Candidate>>, fatal: bool)

  /** The feed-level error test: no title, or an HTTP error code in it */
  predicate ErrorFeed(feed: Feed) {
    feed.title.None? || Contains(feed.title.value, "404") || Contains(feed.title.value, "500")
    || Contains(feed.title.value, "503")
  }

  /** The counters after one more `save_everything` */
  function Added(t: Totals, f: FlushResult): Totals {
    Totals(t.cases + f.casesCreated, t.entries + f.entriesCreated, t.duplicates + f.duplicates,
           t.entriesOld, t.entriesBroken, t.courtsBroken, t.courtsOld)
  }

  /** The counters after a court's item loop and flushes */
  function Tallied(totals: Totals, b: Batching, s: FlushResult): Totals {
    totals.(cases := totals.cases + s.casesCreated, entries := totals.entries + s.entriesCreated,
            duplicates := totals.duplicates + s.duplicates,
            entriesOld := totals.entriesOld + b.stale, entriesBroken := totals.entriesBroken + b.broken)
  }

  /**
   * Lines 322-472 for one downloaded court: skip an error feed; count a feed without a
   * parseable build date broken; skip a court without a watermark (the comparison
   * raises and is caught); count a feed no newer than the watermark old; otherwise run
   * the item loop, flush what is pending, and move the watermark to the build date.
   */
  function IngestFeed(cases: map<nat, CaseRow>, entries: map<nat, EntryRow>, totals: Totals,
                      lastUpdated: Option<int>, feed: Feed, rule: Rule): CourtResult
  {
    if ErrorFeed(feed) then CourtResult(cases, entries, totals, lastUpdated, [], false)
    else
      match feed.buildDate
      case Missing => CourtResult(cases, entries, totals.(courtsBroken := totals.courtsBroken + 1), lastUpdated, [], false)
      case Unparseable => CourtResult(cases, entries, totals.(courtsBroken := totals.courtsBroken + 1), lastUpdated, [], false)
      case At(built) =>
        if lastUpdated.None? then CourtResult(cases, entries, totals, lastUpdated, [], false)
        else if lastUpdated.value >= built then
          CourtResult(cases, entries, totals.(courtsOld := totals.courtsOld + 1), lastUpdated, [], false)
        else
          Settle(Flush, cases, entries, totals, lastUpdated, built, Items(rule(lastUpdated.value), feed.items))
  }

  /** The flushes of a court taken in, and its watermark afterwards */
  function Settle(flush: Flusher, cases: map<nat, CaseRow>, entries: map<nat, EntryRow>, totals: Totals,
                  lastUpdated: Option<int>, built: int, b: Batching): CourtResult
  {
    var s := SaveAll(flush, Start(cases, entries), Batches(b));
    CourtResult(s.cases, s.entries, Tallied(totals, b, s), if b.fatal then lastUpdated else Some(built), Batches(b), b.fatal)
  }

  /** `Settle` as the loop computes it: the full flushes, then the pending rest unless the run ended */
  lemma SettleLast(flush: Flusher, cases: map<nat, CaseRow>, entries: map<nat, EntryRow>, totals: Totals,
                   lastUpdated: Option<int>, built: int, b: Batching)
    ensures var s := SaveAll(flush, Start(cases, entries), b.flushed);
      var t := Tallied(totals, b, s);
      var r := Settle(flush, cases, entries, totals, lastUpdated, built, b);
      && r.fatal == b.fatal
      && (b.fatal ==> r.cases == s.cases && r.entries == s.entries && r.totals == t && r.lastUpdated == lastUpdated)
      && (!b.fatal ==>
            var f := flush(s.cases, s.entries, s.lastSaved, b.pending);
            && r.cases == f.cases && r.entries == f.entries && r.lastUpdated == Some(built)
            && r.totals == Added(t, f))
  {
    if !b.fatal {
      var s := SaveAll(flush, Start(cases, entries), b.flushed);
      var f := flush(s.cases, s.entries, s.lastSaved, b.pending);
      var bs := b.flushed + [b.pending];
      assert bs[..|bs| - 1] == b.flushed;
      var s2 := SaveAll(flush, Start(cases, entries), bs);
      assert s2.cases == f.cases && s2.entries == f.entries;
      assert s2.duplicates == s.duplicates + f.duplicates && s2.casesCreated == s.casesCreated + f.casesCreated
        && s2.entriesCreated == s.entriesCreated + f.entriesCreated;
    }
  }

  /** A feed taken in is settled after its items */
  lemma TakenInSettles(cases: map<nat, CaseRow>, entries: map<nat, EntryRow>, totals: Totals,
                       lastUpdated: Option<int>, feed: Feed, rule: Rule)
    requires TakenIn(lastUpdated, feed)
    ensures IngestFeed(cases, entries, totals, lastUpdated, feed, rule)
      == Settle(Flush, cases, entries, totals, lastUpdated, feed.buildDate.time, Items(rule(lastUpdated.value), feed.items))
  {
  }

  lemma SettleSound(cases: map<nat, CaseRow>, entries: map<nat, EntryRow>, totals: Totals,
                    lastUpdated: Option<int>, built: int, b: Batching)
    requires Integral(cases, entries)
    ensures var r := Settle(Flush, cases, entries, totals, lastUpdated, built, b);
      && Integral(r.cases, r.entries) && entries.Keys <= r.entries.Keys
      && AllStored(r.batches, r.entries)
  {
    SaveAllSound(Start(cases, entries), Batches(b));
    SaveAllStoresAll(Start(cases, entries), Batches(b));
  }

  lemma SettleTwice(cases: map<nat, CaseRow>, entries: map<nat, EntryRow>, totals: Totals, again: Totals,
                    lastUpdated: Option<int>, built: int, b: Batching)
    requires Integral(cases, entries)
    ensures var r := Settle(Flush, cases, entries, totals, lastUpdated, built, b);
      var r' := Settle(Flush, r.cases, r.entries, again, lastUpdated, built, b);
      && r'.cases == r.cases && r'.entries == r.entries
      && r'.totals.cases == again.cases && r'.totals.entries == again.entries
  {
    var r := Settle(Flush, cases, entries, totals, lastUpdated, built, b);
    SettleSound(cases, entries, totals, lastUpdated, built, b);
    SaveAllStored(Start(r.cases, r.entries), Batches(b));
  }

  /** The feed is taken in: it is no error feed, its build date parses and is newer than a watermark */
  predicate TakenIn(lastUpdated: Option<int>, feed: Feed) {
    !ErrorFeed(feed) && feed.buildDate.At? && lastUpdated.Some? && lastUpdated.value < feed.buildDate.time
  }

  /** A feed that is not taken in leaves the store alone and bumps at most one court counter */
  lemma SkippedFeed(cases: map<nat, CaseRow>, entries: map<nat, EntryRow>, totals: Totals,
                    lastUpdated: Option<int>, feed: Feed, rule: Rule)
    requires !TakenIn(lastUpdated, feed)
    ensures var r := IngestFeed(cases, entries, totals, lastUpdated, feed, rule);
      && r.cases == cases && r.entries == entries && r.lastUpdated == lastUpdated && r.batches == [] && !r.fatal
      && r.totals.(courtsBroken := totals.courtsBroken, courtsOld := totals.courtsOld) == totals
      && (r.totals.courtsBroken == totals.courtsBroken + 1 <==> !ErrorFeed(feed) && !feed.buildDate.At?)
      && (r.totals.courtsOld == totals.courtsOld + 1 <==>
            !ErrorFeed(feed) && feed.buildDate.At? && lastUpdated.Some? && lastUpdated.value >= feed.buildDate.time)
  {
  }

  /**
   * The watermark only moves forward, and only to the build date of a feed that was
   * taken in and whose items were all looked at without an uncaught error.
   */
  lemma WatermarkAdvances(cases: map<nat, CaseRow>, entries: map<nat, EntryRow>, totals: Totals,
                          lastUpdated: Option<int>, feed: Feed, rule: Rule)
    ensures var r := IngestFeed(cases, entries, totals, lastUpdated, feed, rule);
      && (r.lastUpdated == lastUpdated || (r.lastUpdated.Some? && lastUpdated.Some? && r.lastUpdated.value > lastUpdated.value))
      && (r.lastUpdated != lastUpdated <==>
            TakenIn(lastUpdated, feed) && Fatal !in Outcomes(rule(lastUpdated.value), feed.items))
      && (r.lastUpdated != lastUpdated ==> r.lastUpdated == Some(feed.buildDate.time))
      && (r.fatal <==> TakenIn(lastUpdated, feed) && Fatal in Outcomes(rule(lastUpdated.value), feed.items))
  {
    if TakenIn(lastUpdated, feed) {
      ItemsAccounted(rule(lastUpdated.value), feed.items);
    }
  }

  /**
   * A feed whose items are all looked at hands every accepted candidate to a flush, in
   * feed order, in batches of at most 500 of which all but the last have exactly 500;
   * every item is accepted, old or broken, and counted so.
   */
  lemma FeedBatches(extract: RawItem -> ItemOutcome, items: seq<RawItem>)
    ensures var b := Items(extract, items);
      var os := Outcomes(extract, items);
      !b.fatal ==>
        && Concat(Batches(b)) == AcceptedIn(os)
        && |Batches(b)| >= 1
        && (forall k :: 0 <= k < |Batches(b)| ==> |Batches(b)[k]| <= FlushSize)
        && (forall k :: 0 <= k < |Batches(b)| - 1 ==> |Batches(b)[k]| == FlushSize)
        && b.stale == CountOld(os) && b.broken == CountBroken(os)
        && |AcceptedIn(os)| + CountOld(os) + CountBroken(os) == |items|
  {
    var b := Items(extract, items);
    var os := Outcomes(extract, items);
    ItemsAccounted(extract, items);
    OutcomesPartition(os);
    if !b.fatal {
      BatchShape(b, os);
    }
  }

  /** The batches of an accounted loop that ran to the end */
  lemma BatchShape(b: Batching, os: seq<ItemOutcome>)
    requires Accounted(b, os) && !b.fatal
    ensures var bs := Batches(b);
      && Concat(bs) == AcceptedIn(os) && |bs| >= 1
      && (forall k :: 0 <= k < |bs| ==> |bs[k]| <= FlushSize)
      && (forall k :: 0 <= k < |bs| - 1 ==> |bs[k]| == FlushSize)
  {
    var bs := b.flushed + [b.pending];
    assert Batches(b) == bs;
    ConcatSnoc(b.flushed, b.pending);
    forall k | 0 <= k < |bs| ensures |bs[k]| <= FlushSize {
      if k < |b.flushed| {
        assert bs[k] == b.flushed[k];
      }
    }
  }

  /**
   * A feed whose run ends at a bad item has flushed only full batches of 500, which
   * hold the accepted candidates before it in feed order, all but fewer than 500.
   */
  lemma FatalFeedBatches(extract: RawItem -> ItemOutcome, items: seq<RawItem>)
    ensures var b := Items(extract, items);
      var os := Outcomes(extract, items);
      b.fatal ==>
        && (forall k :: 0 <= k < |Batches(b)| ==> |Batches(b)[k]| == FlushSize)
        && |Concat(Batches(b))| <= |AcceptedIn(os)| < |Concat(Batches(b))| + FlushSize
        && Concat(Batches(b)) == AcceptedIn(os)[..|Concat(Batches(b))|]
  {
    var b := Items(extract, items);
    ItemsAccounted(extract, items);
    var done := Concat(b.flushed);
    assert (done + b.pending)[..|done|] == done;
  }

  /** Every court keeps the store sound */
  lemma CourtSound(cases: map<nat, CaseRow>, entries: map<nat, EntryRow>, totals: Totals,
                   lastUpdated: Option<int>, feed: Feed, rule: Rule)
    requires Integral(cases, entries)
    ensures var r := IngestFeed(cases, entries, totals, lastUpdated, feed, rule);
      Integral(r.cases, r.entries) && entries.Keys <= r.entries.Keys
  {
    var r := IngestFeed(cases, entries, totals, lastUpdated, feed, rule);
    if TakenIn(lastUpdated, feed) {
      var b := Items(rule(lastUpdated.value), feed.items);
      assert r == Settle(Flush, cases, entries, totals, lastUpdated, feed.buildDate.time, b);
      SettleSound(cases, entries, totals, lastUpdated, feed.buildDate.time, b);
    } else {
      assert r.cases == cases && r.entries == entries;
    }
  }

  /**
   * Taking in the same feed again from the same watermark (as after a crash before the
   * watermark was saved) writes nothing: every candidate is found stored.
   */
  lemma ReingestWritesNothing(cases: map<nat, CaseRow>, entries: map<nat, EntryRow>, totals: Totals, again: Totals,
                              lastUpdated: Option<int>, feed: Feed, rule: Rule)
    requires Integral(cases, entries)
    ensures var r := IngestFeed(cases, entries, totals, lastUpdated, feed, rule);
      var r' := IngestFeed(r.cases, r.entries, again, lastUpdated, feed, rule);
      && r'.cases == r.cases && r'.entries == r.entries
      && r'.totals.cases == again.cases && r'.totals.entries == again.entries
  {
    if TakenIn(lastUpdated, feed) {
      var r := IngestFeed(cases, entries, totals, lastUpdated, feed, rule);
      TakenInSettles(cases, entries, totals, lastUpdated, feed, rule);
      TakenInSettles(r.cases, r.entries, again, lastUpdated, feed, rule);
      SettleTwice(cases, entries, totals, again, lastUpdated, feed.buildDate.time,
                  Items(rule(lastUpdated.value), feed.items));
    }
  }

  // ---------------------------------------------------------------------------
  // the whole run
  // ---------------------------------------------------------------------------

  /** A court row as the run reads it */
  datatype CourtInfo = CourtInfo(id: nat, kind: CourtType, lastUpdated: Option<int>)

  datatype RunResult = RunResult(
    cases: map<nat, CaseRow>, entries: map<nat, EntryRow>, totals: Totals,
    watermarks: seq<Option<int>>, fatal: bool)

  function FailedCount(downloads: seq<Download>): nat {
    if downloads == [] then 0
    else FailedCount(downloads[..|downloads| - 1]) + (if downloads[|downloads| - 1].Failed? then 1 else 0)
  }

  /** One court of the run: a failed download leaves everything as it was */
  function Visit(cases: map<nat, CaseRow>, entries: map<nat, EntryRow>, totals: Totals,
                 court: CourtInfo, download: Download, rules: Rules): CourtResult
  {
    if download.Failed? then CourtResult(cases, entries, totals, court.lastUpdated, [], false)
    else IngestFeed(cases, entries, totals, court.lastUpdated, download.feed, rules(court.id, court.kind))
  }

  type Visitor = (map<nat, CaseRow>, map<nat, EntryRow>, Totals, CourtInfo, Download) -> CourtResult

  function Visiting(rules: Rules): Visitor {
    (cases, entries, totals, court, download) => Visit(cases, entries, totals, court, download, rules)
  }

  /** The courts in order, each downloaded one through `IngestFeed`, until one ends the run */
  function Process(cases: map<nat, CaseRow>, entries: map<nat, EntryRow>, totals: Totals,
                   courts: seq<CourtInfo>, downloads: seq<Download>, visit: Visitor): (r: RunResult)
    requires |courts| == |downloads|
    ensures |r.watermarks| == |courts|
  {
    if courts == [] then RunResult(cases, entries, totals, [], false)
    else
      var n := |courts| - 1;
      var r := Process(cases, entries, totals, courts[..n], downloads[..n], visit);
      if r.fatal then r.(watermarks := r.watermarks + [courts[n].lastUpdated])
      else
        var c := visit(r.cases, r.entries, r.totals, courts[n], downloads[n]);
        RunResult(c.cases, c.entries, c.totals, r.watermarks + [c.lastUpdated], c.fatal)
  }

  /** One downloaded court more on a run that has not ended */
  function Next(r: RunResult, court: CourtInfo, download: Download, visit: Visitor): RunResult {
    var c := visit(r.cases, r.entries, r.totals, court, download);
    RunResult(c.cases, c.entries, c.totals, r.watermarks + [c.lastUpdated], c.fatal)
  }

  /** The run over the first `i + 1` courts is one more step on the run over the first `i` */
  lemma ProcessNext(cases: map<nat, CaseRow>, entries: map<nat, EntryRow>, totals: Totals,
                    courts: seq<CourtInfo>, downloads: seq<Download>, visit: Visitor, i: nat)
    requires |courts| == |downloads| && i < |courts|
    ensures var r := Process(cases, entries, totals, courts[..i], downloads[..i], visit);
      Process(cases, entries, totals, courts[..i + 1], downloads[..i + 1], visit)
        == if r.fatal then r.(watermarks := r.watermarks + [courts[i].lastUpdated])
           else Next(r, courts[i], downloads[i], visit)
  {
    assert courts[..i + 1][..i] == courts[..i] && downloads[..i + 1][..i] == downloads[..i];
  }

  /** Lines 247-472: count the failed downloads, then process the downloaded courts */
  function Run(cases: map<nat, CaseRow>, entries: map<nat, EntryRow>, courts: seq<CourtInfo>,
               downloads: seq<Download>, rules: Rules): RunResult
    requires |courts| == |downloads|
  {
    Process(cases, entries, NoTotals.(courtsBroken := FailedCount(downloads)), courts, downloads, Visiting(rules))
  }

  /** After the run has ended, later courts keep their watermarks and the store is left alone */
  lemma {:induction false} ProcessAfterFatal(cases: map<nat, CaseRow>, entries: map<nat, EntryRow>, totals: Totals,
                                             courts: seq<CourtInfo>, downloads: seq<Download>, visit: Visitor, i: nat)
    requires |courts| == |downloads| && i <= |courts|
    requires Process(cases, entries, totals, courts[..i], downloads[..i], visit).fatal
    ensures var r := Process(cases, entries, totals, courts, downloads, visit);
      var p := Process(cases, entries, totals, courts[..i], downloads[..i], visit);
      && r.cases == p.cases && r.entries == p.entries && r.totals == p.totals && r.fatal
      && r.watermarks[..i] == p.watermarks
      && forall j :: i <= j < |courts| ==> r.watermarks[j] == courts[j].lastUpdated
  {
    if i < |courts| {
      var n := |courts| - 1;
      assert courts[..n][..i] == courts[..i] && downloads[..n][..i] == downloads[..i];
      ProcessAfterFatal(cases, entries, totals, courts[..n], downloads[..n], visit, i);
      var q := Process(cases, entries, totals, courts[..n], downloads[..n], visit);
      var r := Process(cases, entries, totals, courts, downloads, visit);
      assert r == q.(watermarks := q.watermarks + [courts[n].lastUpdated]);
      AfterFatalStep(courts, i, Process(cases, entries, totals, courts[..i], downloads[..i], visit), q, r);
    } else {
      assert courts[..i] == courts && downloads[..i] == downloads;
    }
  }

  /** The step of `ProcessAfterFatal`: an ended run only appends the next court's old watermark */
  lemma AfterFatalStep(courts: seq<CourtInfo>, i: nat, p: RunResult, q: RunResult, r: RunResult)
    requires i < |courts| && |q.watermarks| == |courts| - 1
    requires q.cases == p.cases && q.entries == p.entries && q.totals == p.totals && q.fatal
    requires q.watermarks[..i] == p.watermarks
    requires forall j :: i <= j < |courts| - 1 ==> q.watermarks[j] == courts[j].lastUpdated
    requires r == q.(watermarks := q.watermarks + [courts[|courts| - 1].lastUpdated])
    ensures r.cases == p.cases && r.entries == p.entries && r.totals == p.totals && r.fatal
    ensures r.watermarks[..i] == p.watermarks
    ensures forall j :: i <= j < |courts| ==> r.watermarks[j] == courts[j].lastUpdated
  {
    assert r.watermarks[..i] == q.watermarks[..i];
    forall j | i <= j < |courts| ensures r.watermarks[j] == courts[j].lastUpdated {
      if j < |courts| - 1 {
        assert r.watermarks[j] == q.watermarks[j];
      }
    }
  }

  /** Where the loop of the run stops, all the courts have been taken in or the run has ended */
  lemma ProcessEnd(cases: map<nat, CaseRow>, entries: map<nat, EntryRow>, totals: Totals,
                   courts: seq<CourtInfo>, downloads: seq<Download>, visit: Visitor, i: nat)
    requires |courts| == |downloads| && i <= |courts|
    requires i == |courts| || Process(cases, entries, totals, courts[..i], downloads[..i], visit).fatal
    ensures var r := Process(cases, entries, totals, courts, downloads, visit);
      var p := Process(cases, entries, totals, courts[..i], downloads[..i], visit);
      && r.cases == p.cases && r.entries == p.entries && r.totals == p.totals && r.fatal == p.fatal
      && (forall j :: 0 <= j < i ==> r.watermarks[j] == p.watermarks[j])
      && forall j :: i <= j < |courts| ==> r.watermarks[j] == courts[j].lastUpdated
  {
    if i < |courts| {
      ProcessAfterFatal(cases, entries, totals, courts, downloads, visit, i);
      var r := Process(cases, entries, totals, courts, downloads, visit);
      assert forall j :: 0 <= j < i ==> r.watermarks[j] == r.watermarks[..i][j];
    } else {
      assert courts[..i] == courts && downloads[..i] == downloads;
    }
  }

  /**
   * The watermarks a stopped loop leaves, those of the run for the courts it took in and the
   * old ones for the rest, are the watermarks of the whole run
   */
  lemma ProcessMarks(cases: map<nat, CaseRow>, entries: map<nat, EntryRow>, totals: Totals,
                     courts: seq<CourtInfo>, downloads: seq<Download>, visit: Visitor, i: nat, marks: seq<Option<int>>)
    requires |courts| == |downloads| == |marks| && i <= |courts|
    requires var p := Process(cases, entries, totals, courts[..i], downloads[..i], visit);
      && (i == |courts| || p.fatal)
      && (forall j :: 0 <= j < i ==> marks[j] == p.watermarks[j])
      && forall j :: i <= j < |courts| ==> marks[j] == courts[j].lastUpdated
    ensures var r := Process(cases, entries, totals, courts, downloads, visit);
      var p := Process(cases, entries, totals, courts[..i], downloads[..i], visit);
      && r.cases == p.cases && r.entries == p.entries && r.totals == p.totals && r.fatal == p.fatal
      && r.watermarks == marks
  {
    ProcessEnd(cases, entries, totals, courts, downloads, visit, i);
  }

  /** A watermark that stayed or moved forward */
  predicate Advanced(before: Option<int>, after: Option<int>) {
    after == before || (after.Some? && before.Some? && after.value > before.value)
  }

  /** A court step that keeps the store sound and never moves a watermark back */
  ghost predicate VisitSound(visit: Visitor) {
    forall cases, entries, totals, court, download {:trigger visit(cases, entries, totals, court, download)} ::
      Integral(cases, entries) ==>
        && Integral(visit(cases, entries, totals, court, download).cases, visit(cases, entries, totals, court, download).entries)
        && entries.Keys <= visit(cases, entries, totals, court, download).entries.Keys
        && Advanced(court.lastUpdated, visit(cases, entries, totals, court, download).lastUpdated)
  }

  lemma VisitingSound(rules: Rules)
    ensures VisitSound(Visiting(rules))
  {
    forall cases, entries, totals, court, download | Integral(cases, entries)
      ensures var c := Visiting(rules)(cases, entries, totals, court, download);
        Integral(c.cases, c.entries) && entries.Keys <= c.entries.Keys && Advanced(court.lastUpdated, c.lastUpdated)
    {
      if download.Downloaded? {
        var rule := rules(court.id, court.kind);
        CourtSound(cases, entries, totals, court.lastUpdated, download.feed, rule);
        WatermarkAdvances(cases, entries, totals, court.lastUpdated, download.feed, rule);
      }
    }
  }

  /** Every court of the run keeps the store sound, and the watermarks only move forward */
  lemma {:induction false} ProcessSound(cases: map<nat, CaseRow>, entries: map<nat, EntryRow>, totals: Totals,
                                        courts: seq<CourtInfo>, downloads: seq<Download>, visit: Visitor)
    requires |courts| == |downloads| && Integral(cases, entries) && VisitSound(visit)
    ensures var r := Process(cases, entries, totals, courts, downloads, visit);
      && Integral(r.cases, r.entries) && entries.Keys <= r.entries.Keys
      && forall j :: 0 <= j < |courts| ==> Advanced(courts[j].lastUpdated, r.watermarks[j])
  {
    if courts != [] {
      var n := |courts| - 1;
      var r := Process(cases, entries, totals, courts[..n], downloads[..n], visit);
      ProcessSound(cases, entries, totals, courts[..n], downloads[..n], visit);
      if !r.fatal {
        var c := visit(r.cases, r.entries, r.totals, courts[n], downloads[n]);
        assert Integral(c.cases, c.entries) && Advanced(courts[n].lastUpdated, c.lastUpdated);
      }
    }
  }

  /** The whole run keeps the store sound and moves watermarks only forward */
  lemma RunSound(cases: map<nat, CaseRow>, entries: map<nat, EntryRow>, courts: seq<CourtInfo>,
                 downloads: seq<Download>, rules: Rules)
    requires |courts| == |downloads| && Integral(cases, entries)
    ensures var r := Run(cases, entries, courts, downloads, rules);
      && Integral(r.cases, r.entries) && entries.Keys <= r.entries.Keys
      && forall j :: 0 <= j < |courts| ==> Advanced(courts[j].lastUpdated, r.watermarks[j])
  {
    VisitingSound(rules);
    ProcessSound(cases, entries, NoTotals.(courtsBroken := FailedCount(downloads)), courts, downloads, Visiting(rules));
  }

  // ---------------------------------------------------------------------------
  // the loops
  // ---------------------------------------------------------------------------

  /** The loop state of `TakeItems` is the batching `b` after the flushes it has made */
  predicate Mirrors(flush: Flusher, cases: map<nat, CaseRow>, entries: map<nat, EntryRow>, pending: seq<Candidate>, lastSaved: seq<nat>,
                    current: Totals, fatal: bool, b: Batching, start: FlushResult, totals: Totals)
  {
    var s := SaveAll(flush, start, b.flushed);
    && pending == b.pending && fatal == b.fatal && lastSaved == s.lastSaved
    && cases == s.cases && entries == s.entries && current == Tallied(totals, b, s)
  }

  lemma ItemsNext(extract: RawItem -> ItemOutcome, items: seq<RawItem>, i: nat)
    requires i < |items|
    ensures Items(extract, items[..i + 1]) == StepOn(Items(extract, items[..i]), extract(items[i]))
  {
    assert items[..i + 1][..i] == items[..i];
  }

  /** One more batch: one more flush on the state the earlier batches left */
  lemma SaveAllSnoc(flush: Flusher, start: FlushResult, batches: seq<seq<Candidate>>, x: seq<Candidate>)
    ensures var s := SaveAll(flush, start, batches);
      var f := flush(s.cases, s.entries, s.lastSaved, x);
      SaveAll(flush, start, batches + [x]) == FlushResult(f.cases, f.entries, f.lastSaved, s.duplicates + f.duplicates,
                                                   s.casesCreated + f.casesCreated, s.entriesCreated + f.entriesCreated)
  {
    var nb := batches + [x];
    assert nb[..|nb| - 1] == batches;
  }

  /** An item that does not reach the flush threshold leaves the store alone */
  lemma MirrorsQuiet(flush: Flusher, cases: map<nat, CaseRow>, entries: map<nat, EntryRow>, lastSaved: seq<nat>, current: Totals,
                     b: Batching, start: FlushResult, totals: Totals, o: ItemOutcome)
    requires Mirrors(flush, cases, entries, b.pending, lastSaved, current, false, b, start, totals)
    requires !(o.Accepted? && |b.pending| + 1 == FlushSize)
    ensures var nb := StepOn(b, o);
      Mirrors(flush, cases, entries, nb.pending, lastSaved,
              current.(entriesOld := current.entriesOld + (if o.Old? then 1 else 0),
                       entriesBroken := current.entriesBroken + (if o.Broken? then 1 else 0)),
              o.Fatal?, nb, start, totals)
  {
    var nb := StepOn(b, o);
    assert nb.flushed == b.flushed;
    var s := SaveAll(flush, start, b.flushed);
    var t := Tallied(totals, nb, s);
    var u := current.(entriesOld := current.entriesOld + (if o.Old? then 1 else 0),
                      entriesBroken := current.entriesBroken + (if o.Broken? then 1 else 0));
    assert t.cases == u.cases && t.entries == u.entries && t.duplicates == u.duplicates;
    assert t.entriesOld == u.entriesOld && t.entriesBroken == u.entriesBroken;
    assert t.courtsBroken == u.courtsBroken && t.courtsOld == u.courtsOld;
  }

  /** The 500th pending candidate: `save_everything`, then nothing is pending */
  lemma MirrorsFlush(flush: Flusher, cases: map<nat, CaseRow>, entries: map<nat, EntryRow>, lastSaved: seq<nat>, current: Totals,
                     b: Batching, start: FlushResult, totals: Totals, c: Candidate)
    requires Mirrors(flush, cases, entries, b.pending, lastSaved, current, false, b, start, totals)
    requires |b.pending| + 1 == FlushSize
    ensures var f := flush(cases, entries, lastSaved, b.pending + [c]);
      Mirrors(flush, f.cases, f.entries, [], f.lastSaved,
              Added(current, f),
              false, StepOn(b, Accepted(c)), start, totals)
  {
    var x := b.pending + [c];
    var nb := StepOn(b, Accepted(c));
    assert nb == b.(pending := [], flushed := b.flushed + [x]);
    SaveAllSnoc(flush, start, b.flushed, x);
    var s := SaveAll(flush, start, b.flushed);
    var f := flush(cases, entries, lastSaved, x);
    var s' := SaveAll(flush, start, nb.flushed);
    assert s'.cases == f.cases && s'.entries == f.entries && s'.lastSaved == f.lastSaved;
    assert s'.duplicates == s.duplicates + f.duplicates;
    assert s'.casesCreated == s.casesCreated + f.casesCreated;
    assert s'.entriesCreated == s.entriesCreated + f.entriesCreated;
    assert nb.stale == b.stale && nb.broken == b.broken && !nb.fatal && nb.pending == [];
    var t := Tallied(totals, nb, s');
    assert t.cases == current.cases + f.casesCreated;
    assert t.entries == current.entries + f.entriesCreated;
    assert t.duplicates == current.duplicates + f.duplicates;
    assert t.entriesOld == current.entriesOld && t.entriesBroken == current.entriesBroken;
    assert t.courtsBroken == current.courtsBroken && t.courtsOld == current.courtsOld;
    assert t == Added(current, f);
  }

  /** Lines 371-455: the item loop of a court taken in, with its flushes of 500 */
  method TakeItems(store: Store, extract: RawItem -> ItemOutcome, items: seq<RawItem>, totals: Totals)
    returns (pending: seq<Candidate>, lastSaved: seq<nat>, totals': Totals, fatal: bool)
    requires store.Valid()
    modifies store
    ensures store.Valid()
    ensures var b := Items(extract, items);
      var s := SaveAll(Flush, Start(old(store.cases), old(store.entries)), b.flushed);
      && pending == b.pending && fatal == b.fatal && lastSaved == s.lastSaved
      && store.cases == s.cases && store.entries == s.entries && totals' == Tallied(totals, b, s)
  {
    ghost var start := Start(store.cases, store.entries);
    pending, lastSaved, totals', fatal := [], [], totals, false;
    var i := 0;
    while i < |items| && !fatal
      invariant i <= |items| && store.Valid()
      invariant Mirrors(Flush, store.cases, store.entries, pending, lastSaved, totals', fatal, Items(extract, items[..i]), start, totals)
      decreases |items| - i
    {
      ghost var b := Items(extract, items[..i]);
      ItemsNext(extract, items, i);
      var o := extract(items[i]);
      if o.Accepted? && |pending| + 1 == FlushSize {
        MirrorsFlush(Flush, store.cases, store.entries, lastSaved, totals', b, start, totals, o.candidate);
        lastSaved, totals' := FlushCounted(store, lastSaved, pending + [o.candidate], totals');
        pending := [];
      } else {
        MirrorsQuiet(Flush, store.cases, store.entries, lastSaved, totals', b, start, totals, o);
        match o {
          case Fatal => fatal := true;
          case Old => totals' := totals'.(entriesOld := totals'.entriesOld + 1);
          case Broken(_) => totals' := totals'.(entriesBroken := totals'.entriesBroken + 1);
          case Accepted(c) => pending := pending + [c];
        }
      }
      i := i + 1;
    }
    if i < |items| {
      ItemsAfterFatal(extract, items, i);
    } else {
      assert items[..i] == items;
    }
  }

  /** A `save_everything` call with the command's counters */
  method FlushCounted(store: Store, lastSaved: seq<nat>, batch: seq<Candidate>, current: Totals)
    returns (saved: seq<nat>, totals': Totals)
    requires store.Valid()
    modifies store
    ensures store.Valid()
    ensures var f := Flush(old(store.cases), old(store.entries), lastSaved, batch);
      && store.cases == f.cases && store.entries == f.entries && saved == f.lastSaved && totals' == Added(current, f)
  {
    var duplicates, cases, entries;
    saved, duplicates, cases, entries :=
      SaveEverything(store, lastSaved, batch, current.duplicates, current.cases, current.entries);
    totals' := Totals(cases, entries, duplicates, current.entriesOld, current.entriesBroken,
                      current.courtsBroken, current.courtsOld);
  }

  /**
   * Lines 371-472 for a court taken in: the item loop with its flushes of 500, then, unless
   * an item ended the run, the last flush and the new watermark.
   */
  method TakeCourt(store: Store, court: Court, items: seq<RawItem>, built: int, totals: Totals,
                   extract: RawItem -> ItemOutcome)
    returns (totals': Totals, fatal: bool)
    requires store.Valid()
    modifies store, court
    ensures store.Valid()
    ensures var b := Items(extract, items);
      var s := SaveAll(Flush, Start(old(store.cases), old(store.entries)), b.flushed);
      var t := Tallied(totals, b, s);
      && fatal == b.fatal
      && (b.fatal ==> store.cases == s.cases && store.entries == s.entries && totals' == t
                      && court.lastUpdated == old(court.lastUpdated))
      && (!b.fatal ==>
            var f := Flush(s.cases, s.entries, s.lastSaved, b.pending);
            && store.cases == f.cases && store.entries == f.entries && court.lastUpdated == Some(built)
            && totals' == Added(t, f))
  {
    var pending, lastSaved;
    pending, lastSaved, totals', fatal := TakeItems(store, extract, items, totals);
    if !fatal {
      lastSaved, totals' := FlushCounted(store, lastSaved, pending, totals');
      court.lastUpdated := Some(built);
    }
  }

  /** Lines 322-472 for one downloaded court */
  method IngestCourt(store: Store, court: Court, feed: Feed, totals: Totals, rule: Rule)
    returns (totals': Totals, fatal: bool)
    requires store.Valid()
    modifies store, court
    ensures store.Valid()
    ensures var r := IngestFeed(old(store.cases), old(store.entries), totals,
                                old(court.lastUpdated), feed, rule);
      && store.cases == r.cases && store.entries == r.entries && totals' == r.totals
      && court.lastUpdated == r.lastUpdated && fatal == r.fatal
  {
    totals', fatal := totals, false;
    if ErrorFeed(feed) {
      return;
    }
    if !feed.buildDate.At? {
      totals' := totals.(courtsBroken := totals.courtsBroken + 1);
      return;
    }
    if court.lastUpdated.None? {
      return;
    }
    if court.lastUpdated.value >= feed.buildDate.time {
      totals' := totals.(courtsOld := totals.courtsOld + 1);
      return;
    }
    var extract := rule(court.lastUpdated.value);
    TakenInSettles(store.cases, store.entries, totals, court.lastUpdated, feed, rule);
    SettleLast(Flush, store.cases, store.entries, totals, court.lastUpdated, feed.buildDate.time, Items(extract, feed.items));
    totals', fatal := TakeCourt(store, court, feed.items, feed.buildDate.time, totals, extract);
  }

  function Infos(courts: seq<Court>): (r: seq<CourtInfo>)
    reads courts
    ensures |r| == |courts|
    ensures forall j :: 0 <= j < |courts| ==> r[j] == CourtInfo(courts[j].id, courts[j].kind, courts[j].lastUpdated)
  {
    if courts == [] then []
    else Infos(courts[..|courts| - 1]) + [CourtInfo(courts[|courts| - 1].id, courts[|courts| - 1].kind, courts[|courts| - 1].lastUpdated)]
  }

  /** Lines 287-300: the downloads that failed are counted as broken courts */
  method CountFailed(downloads: seq<Download>) returns (n: nat)
    ensures n == FailedCount(downloads)
  {
    n := 0;
    for i := 0 to |downloads|
      invariant n == FailedCount(downloads[..i])
    {
      assert downloads[..i + 1][..i] == downloads[..i];
      if downloads[i].Failed? {
        n := n + 1;
      }
    }
    assert downloads[..|downloads|] == downloads;
  }

  /** The store and counters of the run are those of `r` */
  predicate Tracking(cases: map<nat, CaseRow>, entries: map<nat, EntryRow>, totals: Totals, fatal: bool, r: RunResult) {
    cases == r.cases && entries == r.entries && totals == r.totals && fatal == r.fatal
  }

  /** Lines 322-472 for one court of the run, downloaded or not */
  method VisitCourt(store: Store, court: Court, download: Download, totals: Totals, rules: Rules)
    returns (totals': Totals, fatal: bool)
    requires store.Valid()
    modifies store, court
    ensures store.Valid()
    ensures var c := Visit(old(store.cases), old(store.entries), totals,
                           CourtInfo(court.id, court.kind, old(court.lastUpdated)), download, rules);
      && store.cases == c.cases && store.entries == c.entries && totals' == c.totals
      && court.lastUpdated == c.lastUpdated && fatal == c.fatal
  {
    if download.Downloaded? {
      totals', fatal := IngestCourt(store, court, download.feed, totals, rules(court.id, court.kind));
    } else {
      totals', fatal := totals, false;
    }
  }

  /**
   * `Command.handle`: counts the failed downloads, then takes in each downloaded court
   * in turn; an uncaught error ends the run and leaves the later courts untouched.
   */
  method Handle(store: Store, courts: seq<Court>, downloads: seq<Download>, rules: Rules)
    returns (totals: Totals, fatal: bool)
    requires store.Valid() && |courts| == |downloads|
    requires forall i, j :: 0 <= i < j < |courts| ==> courts[i] != courts[j]
    modifies store, courts
    ensures store.Valid()
    ensures var r := Run(old(store.cases), old(store.entries), old(Infos(courts)), downloads, rules);
      && store.cases == r.cases && store.entries == r.entries && totals == r.totals && fatal == r.fatal
      && forall j :: 0 <= j < |courts| ==> courts[j].lastUpdated == r.watermarks[j]
  {
    var failed := CountFailed(downloads);
    totals, fatal := TakeCourts(store, courts, downloads, NoTotals.(courtsBroken := failed), rules, Infos(courts));
  }

  /** The courts' watermarks in order */
  function Watermarks(courts: seq<Court>): (r: seq<Option<int>>)
    reads courts
    ensures |r| == |courts| && forall j :: 0 <= j < |courts| ==> r[j] == courts[j].lastUpdated
  {
    if courts == [] then [] else Watermarks(courts[..|courts| - 1]) + [courts[|courts| - 1].lastUpdated]
  }

  /**
   * The loop of `Command.handle` has taken in the first `i` courts: the store, the counters
   * and those courts' watermarks are those of the run over them; the later courts are untouched
   */
  ghost predicate Progress(store: Store, courts: seq<Court>, downloads: seq<Download>, rules: Rules,
                           infos: seq<CourtInfo>, cases0: map<nat, CaseRow>, entries0: map<nat, EntryRow>,
                           totals0: Totals, i: nat, totals: Totals, fatal: bool, run: RunResult)
    reads store, courts
  {
    && |infos| == |courts| == |downloads| && i <= |courts| && store.Valid()
    && run == Process(cases0, entries0, totals0, infos[..i], downloads[..i], Visiting(rules))
    && Tracking(store.cases, store.entries, totals, fatal, run)
    && |run.watermarks| == i && (forall j :: 0 <= j < i ==> courts[j].lastUpdated == run.watermarks[j])
    && forall j :: i <= j < |courts| ==> infos[j] == CourtInfo(courts[j].id, courts[j].kind, courts[j].lastUpdated)
  }

  /** One court of the loop in `Command.handle`, taken in while the run goes on */
  method AdvanceCourt(store: Store, courts: seq<Court>, downloads: seq<Download>, rules: Rules,
                      ghost infos: seq<CourtInfo>, ghost cases0: map<nat, CaseRow>, ghost entries0: map<nat, EntryRow>,
                      ghost totals0: Totals, i: nat, totals: Totals, ghost run: RunResult)
    returns (totals': Totals, fatal: bool, ghost run': RunResult)
    requires i < |courts| && forall j, k :: 0 <= j < k < |courts| ==> courts[j] != courts[k]
    requires Progress(store, courts, downloads, rules, infos, cases0, entries0, totals0, i, totals, false, run)
    modifies store, courts[i]
    ensures Progress(store, courts, downloads, rules, infos, cases0, entries0, totals0, i + 1, totals', fatal, run')
  {
    ProcessNext(cases0, entries0, totals0, infos, downloads, Visiting(rules), i);
    run' := Next(run, infos[i], downloads[i], Visiting(rules));
    assert forall j :: 0 <= j < i ==> run'.watermarks[j] == run.watermarks[j];
    totals', fatal := VisitCourt(store, courts[i], downloads[i], totals, rules);
    assert forall j :: 0 <= j < |courts| && j != i ==> courts[j].lastUpdated == old(courts[j].lastUpdated);
  }

  /** The loop of `Command.handle` over the courts, from the counters `totals0` on */
  method TakeCourts(store: Store, courts: seq<Court>, downloads: seq<Download>, totals0: Totals, rules: Rules, ghost infos: seq<CourtInfo>)
    returns (totals: Totals, fatal: bool)
    requires infos == Infos(courts)
    requires store.Valid() && |courts| == |downloads|
    requires forall i, j :: 0 <= i < j < |courts| ==> courts[i] != courts[j]
    modifies store, courts
    ensures store.Valid()
    ensures var r := Process(old(store.cases), old(store.entries), totals0, infos, downloads, Visiting(rules));
      && store.cases == r.cases && store.entries == r.entries && totals == r.totals && fatal == r.fatal
      && Watermarks(courts) == r.watermarks
  {
    ghost var cases0, entries0 := store.cases, store.entries;
    totals, fatal := totals0, false;
    var i := 0;
    ghost var run := RunResult(cases0, entries0, totals0, [], false);
    while i < |courts| && !fatal
      invariant Progress(store, courts, downloads, rules, infos, cases0, entries0, totals0, i, totals, fatal, run)
      decreases |courts| - i
    {
      totals, fatal, run := AdvanceCourt(store, courts, downloads, rules, infos, cases0, entries0, totals0, i, totals, run);
      i := i + 1;
    }
    ProcessMarks(cases0, entries0, totals0, infos, downloads, Visiting(rules), i, Watermarks(courts));
  }
}
