/**
 * The driver of the legacy `trackcases_old` command (`Command.handle`): the feed-level
 * checks of each court, the item loop that collects tuples and flushes them every 150,
 * the final flush of each court, and the watermark update after it.
 *
 * As for the current command, `LegacyItems` says how a feed's items are sorted and cut
 * into batches, `SaveAllLegacy` what the successive `save_everything` calls do with them;
 * `LegacyIngestFeed` and `LegacyRun` put them together, and `IngestLegacyCourt` and
 * `LegacyHandle` are the loops, proved to end in the state they describe.
 */
module LegacyIngest {
  import opened Wrappers
  import opened Courts
  import Track
  import opened LegacyTrack
  import opened LegacyBatch
  import Ingest

  /** `len(entries_to_save) == 150` triggers a flush */
  const LegacyFlushSize: nat := 150

  /** A parsed legacy feed: whether `feed['feed']` holds anything, and its entries */
  datatype LegacyFeed = LegacyFeed(hasChannel: bool, items: seq<Track.RawItem>)

  // ---------------------------------------------------------------------------
  // how the items of one feed are batched
  // ---------------------------------------------------------------------------

  /**
   * What the item loop has done so far: the tuples waiting in `entries_to_save`, the full
   * batches already handed to `save_everything`, the old and broken counts, and whether
   * an uncaught error has ended the run.
   */
  datatype LegacyBatching = LegacyBatching(
    pending: seq<LegacyCandidate>, flushed: seq<seq<LegacyCandidate>>, stale: nat, broken: nat, fatal: bool)

  const NoLegacyBatches := LegacyBatching([], [], 0, 0, false)

  /** The loop body once the item's outcome is known (lines 322-415) */
  function LegacyStepOn(b: LegacyBatching, o: LegacyOutcome): LegacyBatching {
    if b.fatal then b
    else
      match o
      case Fatal => b.(fatal := true)
      case Stale => b.(stale := b.stale + 1)
      case Dropped => b.(broken := b.broken + 1)
      case Taken(c) =>
        if |b.pending| + 1 == LegacyFlushSize then b.(pending := [], flushed := b.flushed + [b.pending + [c]])
        else b.(pending := b.pending + [c])
  }

  /** The item loop over `items`, in feed order */
  function LegacyItems(extract: Track.RawItem -> LegacyOutcome, items: seq<Track.RawItem>): LegacyBatching {
    if items == [] then NoLegacyBatches
    else
      LegacyStepOn(LegacyItems(extract, items[..|items| - 1]), extract(items[|items| - 1]))
  }

  /** The item decision of a court whose watermark is `lastUpdated` */
  function LegacyClassifier(courtId: nat, kind: CourtType, lastUpdated: int): Track.RawItem -> LegacyOutcome {
    item => LegacyExtractItem(courtId, kind, lastUpdated, item)
  }

  /** Every batch handed to `save_everything` for a court: the full ones, then the rest unless the run ended */
  function LegacyBatches(b: LegacyBatching): seq<seq<LegacyCandidate>> {
    if b.fatal then b.flushed else b.flushed + [b.pending]
  }

  lemma LegacyItemsNext(extract: Track.RawItem -> LegacyOutcome, items: seq<Track.RawItem>, i: nat)
    requires i < |items|
    ensures LegacyItems(extract, items[..i + 1]) == LegacyStepOn(LegacyItems(extract, items[..i]), extract(items[i]))
  {
    assert items[..i + 1][..i] == items[..i];
  }

  /** Once the loop has stopped, later items change nothing */
  lemma {:induction false} LegacyItemsAfterFatal(extract: Track.RawItem -> LegacyOutcome, items: seq<Track.RawItem>, i: nat)
    requires i <= |items| && LegacyItems(extract, items[..i]).fatal
    ensures LegacyItems(extract, items) == LegacyItems(extract, items[..i])
  {
    if i < |items| {
      var init := items[..|items| - 1];
      assert init[..i] == items[..i];
      LegacyItemsAfterFatal(extract, init, i);
    } else {
      assert items[..i] == items;
    }
  }

  // ---------------------------------------------------------------------------
  // a reference account of the items
  // ---------------------------------------------------------------------------

  /** The outcomes of the items the loop looks at: all of them, up to and including the first `Fatal` */
  function LegacyOutcomes(extract: Track.RawItem -> LegacyOutcome, items: seq<Track.RawItem>): (r: seq<LegacyOutcome>)
    ensures |r| <= |items|
    ensures Fatal !in r ==> |r| == |items|
    ensures forall i :: 0 <= i < |r| - 1 ==> r[i] != Fatal
  {
    if items == [] then []
    else
      var before := LegacyOutcomes(extract, items[..|items| - 1]);
      if Fatal in before then before
      else before + [extract(items[|items| - 1])]
  }

  function TakenTuples(os: seq<LegacyOutcome>): seq<LegacyCandidate> {
    if os == [] then []
    else TakenTuples(os[..|os| - 1]) + (if os[|os| - 1].Taken? then [os[|os| - 1].candidate] else [])
  }

  function CountStale(os: seq<LegacyOutcome>): nat {
    if os == [] then 0 else CountStale(os[..|os| - 1]) + (if os[|os| - 1] == Stale then 1 else 0)
  }

  function CountDropped(os: seq<LegacyOutcome>): nat {
    if os == [] then 0 else CountDropped(os[..|os| - 1]) + (if os[|os| - 1] == Dropped then 1 else 0)
  }

  /** Every outcome the loop looks at is taken, old or broken, or is the `Fatal` it stops at */
  lemma {:induction false} LegacyOutcomesPartition(os: seq<LegacyOutcome>)
    requires forall i :: 0 <= i < |os| - 1 ==> os[i] != Fatal
    ensures |TakenTuples(os)| + CountStale(os) + CountDropped(os) + (if Fatal in os then 1 else 0) == |os|
  {
    if os != [] {
      var init := os[..|os| - 1];
      assert os == init + [os[|os| - 1]];
      LegacyOutcomesPartition(init);
    }
  }

  function Concat(batches: seq<seq<LegacyCandidate>>): seq<LegacyCandidate> {
    if batches == [] then [] else Concat(batches[..|batches| - 1]) + batches[|batches| - 1]
  }

  lemma ConcatSnoc(batches: seq<seq<LegacyCandidate>>, b: seq<LegacyCandidate>)
    ensures Concat(batches + [b]) == Concat(batches) + b
  {
    assert (batches + [b])[..|batches|] == batches;
  }

  /** The invariant of the item loop, against the outcomes it has looked at */
  predicate LegacyAccounted(b: LegacyBatching, os: seq<LegacyOutcome>) {
    && Concat(b.flushed) + b.pending == TakenTuples(os)
    && |b.pending| < LegacyFlushSize
    && (forall k :: 0 <= k < |b.flushed| ==> |b.flushed[k]| == LegacyFlushSize)
    && b.stale == CountStale(os)
    && b.broken == CountDropped(os)
    && (b.fatal <==> Fatal in os)
  }

  lemma LegacyStepAccounted(b: LegacyBatching, os: seq<LegacyOutcome>, o: LegacyOutcome)
    requires LegacyAccounted(b, os) && Fatal !in os
    ensures LegacyAccounted(LegacyStepOn(b, o), os + [o])
  {
    var os' := os + [o];
    assert os'[..|os'| - 1] == os;
    if o.Taken? && |b.pending| + 1 == LegacyFlushSize {
      ConcatSnoc(b.flushed, b.pending + [o.candidate]);
    }
  }

  /**
   * The item loop hands every taken tuple, in feed order and exactly once, to a flush of
   * exactly 150 or leaves it pending (fewer than 150); it counts each old and each broken
   * item once; and it stops at the first item whose link has no case key.
   */
  lemma {:induction false} LegacyItemsAccounted(extract: Track.RawItem -> LegacyOutcome, items: seq<Track.RawItem>)
    ensures LegacyAccounted(LegacyItems(extract, items), LegacyOutcomes(extract, items))
  {
    if items != [] {
      var init := items[..|items| - 1];
      var before := LegacyOutcomes(extract, init);
      LegacyItemsAccounted(extract, init);
      if Fatal !in before {
        LegacyStepAccounted(LegacyItems(extract, init), before, extract(items[|items| - 1]));
      }
    }
  }

  /**
   * A feed whose items are all looked at hands every taken tuple to a flush, in feed
   * order, in batches of at most 150 of which all but the last have exactly 150; every
   * item is taken, old or broken, and counted so.
   */
  lemma LegacyFeedBatches(extract: Track.RawItem -> LegacyOutcome, items: seq<Track.RawItem>)
    ensures var b := LegacyItems(extract, items);
      var os := LegacyOutcomes(extract, items);
      !b.fatal ==>
        && Concat(LegacyBatches(b)) == TakenTuples(os)
        && |LegacyBatches(b)| >= 1
        && (forall k :: 0 <= k < |LegacyBatches(b)| ==> |LegacyBatches(b)[k]| <= LegacyFlushSize)
        && (forall k :: 0 <= k < |LegacyBatches(b)| - 1 ==> |LegacyBatches(b)[k]| == LegacyFlushSize)
        && b.stale == CountStale(os) && b.broken == CountDropped(os)
        && |TakenTuples(os)| + CountStale(os) + CountDropped(os) == |items|
  {
    var b := LegacyItems(extract, items);
    var os := LegacyOutcomes(extract, items);
    LegacyItemsAccounted(extract, items);
    LegacyOutcomesPartition(os);
    if !b.fatal {
      BatchShape(b, os);
    }
  }

  /** The batches of an accounted loop that ran to the end */
  lemma BatchShape(b: LegacyBatching, os: seq<LegacyOutcome>)
    requires LegacyAccounted(b, os) && !b.fatal
    ensures var bs := LegacyBatches(b);
      && Concat(bs) == TakenTuples(os) && |bs| >= 1
      && (forall k :: 0 <= k < |bs| ==> |bs[k]| <= LegacyFlushSize)
      && (forall k :: 0 <= k < |bs| - 1 ==> |bs[k]| == LegacyFlushSize)
  {
    var bs := b.flushed + [b.pending];
    assert LegacyBatches(b) == bs;
    ConcatSnoc(b.flushed, b.pending);
    forall k | 0 <= k < |bs| ensures |bs[k]| <= LegacyFlushSize {
      if k < |b.flushed| {
        assert bs[k] == b.flushed[k];
      }
    }
  }

  /**
   * A feed whose run ends at a bad link has flushed only full batches of 150, which hold
   * the tuples taken before it in feed order, all but fewer than 150.
   */
  lemma LegacyFatalFeedBatches(extract: Track.RawItem -> LegacyOutcome, items: seq<Track.RawItem>)
    ensures var b := LegacyItems(extract, items);
      var os := LegacyOutcomes(extract, items);
      b.fatal ==>
        && (forall k :: 0 <= k < |LegacyBatches(b)| ==> |LegacyBatches(b)[k]| == LegacyFlushSize)
        && |Concat(LegacyBatches(b))| <= |TakenTuples(os)| < |Concat(LegacyBatches(b))| + LegacyFlushSize
        && Concat(LegacyBatches(b)) == TakenTuples(os)[..|Concat(LegacyBatches(b))|]
  {
    var b := LegacyItems(extract, items);
    LegacyItemsAccounted(extract, items);
    var done := Concat(b.flushed);
    assert (done + b.pending)[..|done|] == done;
  }

  // ---------------------------------------------------------------------------
  // what the flushes of one court do
  // ---------------------------------------------------------------------------

  /** The store of a court's first flush: `last_entries_saved` starts empty for every court */
  function LegacyStart(cases: seq<LegacyCaseRow>, entries: seq<LegacyEntryRow>): LegacyFlushResult {
    LegacyFlushResult(cases, entries, [], 0, 0, 0)
  }

  /** The successive `save_everything` calls on `batches`, with their counters summed */
  function SaveAllLegacy(arrange: Arranger, start: LegacyFlushResult, batches: seq<seq<LegacyCandidate>>): LegacyFlushResult {
    if batches == [] then start
    else
      var s := SaveAllLegacy(arrange, start, batches[..|batches| - 1]);
      var f := LegacyFlush(arrange, s.cases, s.entries, s.lastSaved, batches[|batches| - 1]);
      LegacyFlushResult(f.cases, f.entries, f.lastSaved, s.duplicates + f.duplicates,
                        s.casesCreated + f.casesCreated, s.entriesCreated + f.entriesCreated)
  }

  /** One more batch: one more flush on the state the earlier batches left */
  lemma SaveAllLegacySnoc(arrange: Arranger, start: LegacyFlushResult, batches: seq<seq<LegacyCandidate>>, x: seq<LegacyCandidate>)
    ensures var s := SaveAllLegacy(arrange, start, batches);
      var f := LegacyFlush(arrange, s.cases, s.entries, s.lastSaved, x);
      SaveAllLegacy(arrange, start, batches + [x])
        == LegacyFlushResult(f.cases, f.entries, f.lastSaved, s.duplicates + f.duplicates,
                             s.casesCreated + f.casesCreated, s.entriesCreated + f.entriesCreated)
  {
    var nb := batches + [x];
    assert nb[..|nb| - 1] == batches;
  }

  /** Every tuple handed to a flush is counted once, as a duplicate or as an entry created */
  lemma {:induction false} SaveAllLegacyCounts(arrange: Arranger, start: LegacyFlushResult, batches: seq<seq<LegacyCandidate>>)
    ensures var r := SaveAllLegacy(arrange, start, batches);
      r.duplicates + r.entriesCreated == start.duplicates + start.entriesCreated + |Concat(batches)|
  {
    if batches != [] {
      var n := |batches| - 1;
      var s := SaveAllLegacy(arrange, start, batches[..n]);
      SaveAllLegacyCounts(arrange, start, batches[..n]);
      SaveAllLegacyLast(arrange, start, batches);
      LegacyFlushCounts(arrange, s.cases, s.entries, s.lastSaved, batches[n]);
    }
  }

  /** Remembering the unsaved tuples of one more batch keeps the list without repeats */
  lemma RememberStep(saved: seq<LegacyCandidate>, u: seq<LegacyCandidate>, x: seq<LegacyCandidate>,
                     start: seq<LegacyCandidate>, before: seq<LegacyCandidate>)
    requires NoRepeats(saved) && NoRepeats(u)
    requires forall y :: y in u <==> y in x && y !in saved
    requires forall y :: y in saved <==> y in start || y in before
    ensures NoRepeats(saved + u)
    ensures forall y :: y in saved + u <==> y in start || y in before + x
  {
    var r := saved + u;
    forall i, j | 0 <= i < j < |r| ensures r[i] != r[j] {
      if i < |saved| <= j {
        assert r[i] == saved[i] && r[j] == u[j - |saved|];
        assert r[j] !in saved;
      } else if |saved| <= i {
        assert r[i] == u[i - |saved|] && r[j] == u[j - |saved|];
      } else {
        assert r[i] == saved[i] && r[j] == saved[j];
      }
    }
  }

  /** The flush of one batch after `batches` */
  lemma SaveAllLegacyLast(arrange: Arranger, start: LegacyFlushResult, batches: seq<seq<LegacyCandidate>>)
    requires batches != []
    ensures var n := |batches| - 1;
      var s := SaveAllLegacy(arrange, start, batches[..n]);
      var f := LegacyFlush(arrange, s.cases, s.entries, s.lastSaved, batches[n]);
      var r := SaveAllLegacy(arrange, start, batches);
      && r.cases == f.cases && r.entries == f.entries && r.lastSaved == f.lastSaved
      && r.duplicates == s.duplicates + f.duplicates && r.casesCreated == s.casesCreated + f.casesCreated
      && r.entriesCreated == s.entriesCreated + f.entriesCreated
      && Concat(batches) == Concat(batches[..n]) + batches[n]
  {
    var n := |batches| - 1;
    ConcatSnoc(batches[..n], batches[n]);
    assert batches[..n] + [batches[n]] == batches;
  }

  /**
   * Within a court, `last_entries_saved` lists each distinct tuple flushed so far exactly
   * once, and one entry has been created per tuple added to it.
   */
  lemma {:induction false} SaveAllLegacyOnce(arrange: Arranger, start: LegacyFlushResult, batches: seq<seq<LegacyCandidate>>)
    requires NoRepeats(start.lastSaved)
    ensures var r := SaveAllLegacy(arrange, start, batches);
      && NoRepeats(r.lastSaved)
      && (forall x :: x in r.lastSaved <==> x in start.lastSaved || x in Concat(batches))
      && r.entriesCreated + |start.lastSaved| == start.entriesCreated + |r.lastSaved|
  {
    if batches != [] {
      var n := |batches| - 1;
      var s := SaveAllLegacy(arrange, start, batches[..n]);
      SaveAllLegacyOnce(arrange, start, batches[..n]);
      SaveAllLegacyLast(arrange, start, batches);
      LegacyFlushWritesUnsaved(arrange, s.cases, s.entries, s.lastSaved, batches[n]);
      var u := Unsaved(arrange(batches[n]), s.lastSaved);
      RememberStep(s.lastSaved, u, batches[n], start.lastSaved, Concat(batches[..n]));
    }
  }

  /** A court's flushes create one entry per distinct tuple handed to them */
  lemma CourtWritesEachOnce(arrange: Arranger, cases: seq<LegacyCaseRow>, entries: seq<LegacyEntryRow>,
                            batches: seq<seq<LegacyCandidate>>)
    ensures var r := SaveAllLegacy(arrange, LegacyStart(cases, entries), batches);
      r.entriesCreated == |set x | x in Concat(batches)|
  {
    var r := SaveAllLegacy(arrange, LegacyStart(cases, entries), batches);
    SaveAllLegacyOnce(arrange, LegacyStart(cases, entries), batches);
    DistinctCard(r.lastSaved);
    assert (set x | x in r.lastSaved) == (set x | x in Concat(batches));
  }

  /**
   * A sound store state: every entry attached to a case, one case per website, and a
   * stored case for the website of every tuple `last_entries_saved` remembers.
   */
  predicate LegacySound(s: LegacyFlushResult) {
    Attached(s.cases, s.entries) && UniqueSites(s.cases) && WebsitesOf(s.lastSaved) <= SitesOf(s.cases)
  }

  lemma WebsitesAppend(a: seq<LegacyCandidate>, b: seq<LegacyCandidate>)
    ensures WebsitesOf(a + b) == WebsitesOf(a) + WebsitesOf(b)
  {
    forall w | w in WebsitesOf(a + b) ensures w in WebsitesOf(a) + WebsitesOf(b) {
      var y :| y in a + b && y.caseWebsite == w;
    }
  }

  /** What one flush keeps, on any state its results are related to as the flush lemmas say */
  lemma SoundStep(s: LegacyFlushResult, f: LegacyFlushResult, u: seq<LegacyCandidate>, x: seq<LegacyCandidate>)
    requires LegacySound(s)
    requires Attached(f.cases, f.entries) && UniqueSites(f.cases)
    requires SitesOf(f.cases) == SitesOf(s.cases) + WebsitesOf(u)
    requires f.lastSaved == s.lastSaved + u
    requires forall y :: y in u <==> y in x && y !in s.lastSaved
    ensures LegacySound(f) && SitesOf(s.cases) <= SitesOf(f.cases) && WebsitesOf(x) <= SitesOf(f.cases)
  {
    WebsitesAppend(s.lastSaved, u);
    forall w | w in WebsitesOf(x) ensures w in SitesOf(f.cases) {
      var y :| y in x && y.caseWebsite == w;
      if y in u {
        assert w in WebsitesOf(u);
      } else {
        assert w in WebsitesOf(s.lastSaved);
      }
    }
  }

  /** One `save_everything` keeps the store sound and stores a case for every website of its batch */
  lemma LegacyFlushSound(arrange: Arranger, s: LegacyFlushResult, x: seq<LegacyCandidate>)
    requires LegacySound(s)
    ensures var f := LegacyFlush(arrange, s.cases, s.entries, s.lastSaved, x);
      && LegacySound(f)
      && |s.entries| <= |f.entries| && f.entries[..|s.entries|] == s.entries
      && SitesOf(s.cases) <= SitesOf(f.cases) && WebsitesOf(x) <= SitesOf(f.cases)
  {
    var f := LegacyFlush(arrange, s.cases, s.entries, s.lastSaved, x);
    LegacyFlushEntries(arrange, s.cases, s.entries, s.lastSaved, x);
    LegacyFlushCases(arrange, s.cases, s.entries, s.lastSaved, x);
    LegacyFlushWritesUnsaved(arrange, s.cases, s.entries, s.lastSaved, x);
    SoundStep(s, f, Unsaved(arrange(x), s.lastSaved), x);
  }

  /**
   * The flushes keep the store sound, keep every stored entry in place, keep every stored
   * website, and leave a case stored for the website of every tuple flushed.
   */
  lemma {:induction false} SaveAllLegacySound(arrange: Arranger, start: LegacyFlushResult, batches: seq<seq<LegacyCandidate>>)
    requires LegacySound(start)
    ensures var r := SaveAllLegacy(arrange, start, batches);
      && LegacySound(r)
      && |start.entries| <= |r.entries| && r.entries[..|start.entries|] == start.entries
      && SitesOf(start.cases) <= SitesOf(r.cases)
      && WebsitesOf(Concat(batches)) <= SitesOf(r.cases)
  {
    if batches != [] {
      var n := |batches| - 1;
      var s := SaveAllLegacy(arrange, start, batches[..n]);
      SaveAllLegacySound(arrange, start, batches[..n]);
      SaveAllLegacyLast(arrange, start, batches);
      LegacyFlushSound(arrange, s, batches[n]);
      var r := SaveAllLegacy(arrange, start, batches);
      assert r.entries[..|start.entries|] == r.entries[..|s.entries|][..|start.entries|];
      WebsitesAppend(Concat(batches[..n]), batches[n]);
    }
  }

  // ---------------------------------------------------------------------------
  // one court
  // ---------------------------------------------------------------------------

  datatype LegacyCourtResult = LegacyCourtResult(
    cases: seq<LegacyCaseRow>, entries: seq<LegacyEntryRow>, totals: Ingest.Totals,
    lastUpdated: Option<int>, batches: seq<seq<LegacyCandidate>>, fatal: bool)

  /** The counters after one more `save_everything` */
  function LegacyAdded(t: Ingest.Totals, f: LegacyFlushResult): Ingest.Totals {
    t.(cases := t.cases + f.casesCreated, entries := t.entries + f.entriesCreated,
       duplicates := t.duplicates + f.duplicates)
  }

  /** The counters after a court's item loop and flushes */
  function LegacyTallied(totals: Ingest.Totals, b: LegacyBatching, s: LegacyFlushResult): Ingest.Totals {
    totals.(cases := totals.cases + s.casesCreated, entries := totals.entries + s.entriesCreated,
            duplicates := totals.duplicates + s.duplicates,
            entriesOld := totals.entriesOld + b.stale, entriesBroken := totals.entriesBroken + b.broken)
  }

  /** The flushes of a court taken in, and its watermark afterwards */
  function LegacySettle(arrange: Arranger, cases: seq<LegacyCaseRow>, entries: seq<LegacyEntryRow>, totals: Ingest.Totals,
                        lastUpdated: Option<int>, built: int, b: LegacyBatching): LegacyCourtResult
  {
    var s := SaveAllLegacy(arrange, LegacyStart(cases, entries), LegacyBatches(b));
    LegacyCourtResult(s.cases, s.entries, LegacyTallied(totals, b, s), if b.fatal then lastUpdated else Some(built),
                      LegacyBatches(b), b.fatal)
  }

  /** The feed's time: that of its first entry */
  function FeedTime(feed: LegacyFeed): Track.DateField
    requires feed.items != []
  {
    feed.items[0].pubDate
  }

  /**
   * The feed is taken in: it has a channel and entries, its first entry's date parses, and
   * it is newer than the court's watermark
   */
  predicate LegacyTakenIn(lastUpdated: Option<int>, feed: LegacyFeed) {
    && feed.hasChannel && feed.items != [] && FeedTime(feed).At?
    && lastUpdated.Some? && lastUpdated.value < FeedTime(feed).time
  }

  /**
   * Lines 273-421 for one court: skip a feed without a channel or without entries; count
   * a feed whose first entry has no usable date broken; end the run when the court has no
   * watermark (the comparison raises an uncaught `TypeError`); count a feed no newer than
   * the watermark old; otherwise run the item loop, flush what is pending, and move the
   * watermark to the feed's time.
   */
  function LegacyIngestFeed(arrange: Arranger, cases: seq<LegacyCaseRow>, entries: seq<LegacyEntryRow>,
                            totals: Ingest.Totals, court: Ingest.CourtInfo, feed: LegacyFeed): LegacyCourtResult
  {
    if !feed.hasChannel || feed.items == [] then LegacyCourtResult(cases, entries, totals, court.lastUpdated, [], false)
    else
      match FeedTime(feed)
      case Missing => LegacyCourtResult(cases, entries, totals.(courtsBroken := totals.courtsBroken + 1), court.lastUpdated, [], false)
      case Unparseable => LegacyCourtResult(cases, entries, totals.(courtsBroken := totals.courtsBroken + 1), court.lastUpdated, [], false)
      case At(built) =>
        if court.lastUpdated.None? then LegacyCourtResult(cases, entries, totals, court.lastUpdated, [], true)
        else if court.lastUpdated.value >= built then
          LegacyCourtResult(cases, entries, totals.(courtsOld := totals.courtsOld + 1), court.lastUpdated, [], false)
        else
          LegacySettle(arrange, cases, entries, totals, court.lastUpdated, built,
                       LegacyItems(LegacyClassifier(court.id, court.kind, court.lastUpdated.value), feed.items))
  }

  /** `LegacySettle` after an item ended the run: the full flushes only, and the watermark stays */
  lemma LegacySettleFatal(arrange: Arranger, cases: seq<LegacyCaseRow>, entries: seq<LegacyEntryRow>, totals: Ingest.Totals,
                          lastUpdated: Option<int>, built: int, b: LegacyBatching)
    requires b.fatal
    ensures var s := SaveAllLegacy(arrange, LegacyStart(cases, entries), b.flushed);
      var r := LegacySettle(arrange, cases, entries, totals, lastUpdated, built, b);
      && r.fatal && r.cases == s.cases && r.entries == s.entries && r.totals == LegacyTallied(totals, b, s)
      && r.lastUpdated == lastUpdated
  {
  }

  /** `LegacySettle` as the loop computes it: the full flushes, then the pending rest */
  lemma LegacySettleLast(arrange: Arranger, cases: seq<LegacyCaseRow>, entries: seq<LegacyEntryRow>, totals: Ingest.Totals,
                         lastUpdated: Option<int>, built: int, b: LegacyBatching)
    requires !b.fatal
    ensures var s := SaveAllLegacy(arrange, LegacyStart(cases, entries), b.flushed);
      var f := LegacyFlush(arrange, s.cases, s.entries, s.lastSaved, b.pending);
      var r := LegacySettle(arrange, cases, entries, totals, lastUpdated, built, b);
      && !r.fatal && r.cases == f.cases && r.entries == f.entries && r.lastUpdated == Some(built)
      && r.totals == LegacyAdded(LegacyTallied(totals, b, s), f)
  {
    var start := LegacyStart(cases, entries);
    assert LegacyBatches(b) == b.flushed + [b.pending];
    SaveAllLegacySnoc(arrange, start, b.flushed, b.pending);
    var s := SaveAllLegacy(arrange, start, b.flushed);
    var f := LegacyFlush(arrange, s.cases, s.entries, s.lastSaved, b.pending);
    var s' := SaveAllLegacy(arrange, start, LegacyBatches(b));
    var t := LegacyTallied(totals, b, s');
    var u := LegacyAdded(LegacyTallied(totals, b, s), f);
    assert t.cases == u.cases && t.entries == u.entries && t.duplicates == u.duplicates;
    assert t.entriesOld == u.entriesOld && t.entriesBroken == u.entriesBroken;
    assert t.courtsBroken == u.courtsBroken && t.courtsOld == u.courtsOld;
  }

  /** A feed that is not taken in leaves the store alone and bumps at most one court counter, or ends the run */
  lemma LegacySkippedFeed(arrange: Arranger, cases: seq<LegacyCaseRow>, entries: seq<LegacyEntryRow>, totals: Ingest.Totals,
                          court: Ingest.CourtInfo, feed: LegacyFeed)
    requires !LegacyTakenIn(court.lastUpdated, feed)
    ensures var r := LegacyIngestFeed(arrange, cases, entries, totals, court, feed);
      && r.cases == cases && r.entries == entries && r.lastUpdated == court.lastUpdated && r.batches == []
      && r.totals.(courtsBroken := totals.courtsBroken, courtsOld := totals.courtsOld) == totals
      && (r.totals.courtsBroken == totals.courtsBroken + 1 <==>
            feed.hasChannel && feed.items != [] && !FeedTime(feed).At?)
      && (r.fatal <==> feed.hasChannel && feed.items != [] && FeedTime(feed).At? && court.lastUpdated.None?)
      && (r.totals.courtsOld == totals.courtsOld + 1 <==>
            && feed.hasChannel && feed.items != [] && FeedTime(feed).At? && court.lastUpdated.Some?
            && court.lastUpdated.value >= FeedTime(feed).time)
  {
  }

  /**
   * The watermark only moves forward, and only to the time of a feed that was taken in and
   * whose items were all looked at without an uncaught error.
   */
  lemma LegacyWatermarkAdvances(arrange: Arranger, cases: seq<LegacyCaseRow>, entries: seq<LegacyEntryRow>,
                                totals: Ingest.Totals, court: Ingest.CourtInfo, feed: LegacyFeed)
    ensures var r := LegacyIngestFeed(arrange, cases, entries, totals, court, feed);
      var lu := court.lastUpdated;
      && Ingest.Advanced(lu, r.lastUpdated)
      && (r.lastUpdated != lu <==>
            LegacyTakenIn(lu, feed)
            && Fatal !in LegacyOutcomes(LegacyClassifier(court.id, court.kind, lu.value), feed.items))
      && (r.lastUpdated != lu ==> r.lastUpdated == Some(FeedTime(feed).time))
  {
    var lu := court.lastUpdated;
    if LegacyTakenIn(lu, feed) {
      LegacyItemsAccounted(LegacyClassifier(court.id, court.kind, lu.value), feed.items);
    }
  }

  /** Every court keeps the store sound and keeps the stored entries in place */
  lemma LegacyCourtSound(arrange: Arranger, cases: seq<LegacyCaseRow>, entries: seq<LegacyEntryRow>,
                         totals: Ingest.Totals, court: Ingest.CourtInfo, feed: LegacyFeed)
    requires Attached(cases, entries) && UniqueSites(cases)
    ensures var r := LegacyIngestFeed(arrange, cases, entries, totals, court, feed);
      && Attached(r.cases, r.entries) && UniqueSites(r.cases)
      && |entries| <= |r.entries| && r.entries[..|entries|] == entries
      && SitesOf(cases) <= SitesOf(r.cases)
  {
    var r := LegacyIngestFeed(arrange, cases, entries, totals, court, feed);
    if LegacyTakenIn(court.lastUpdated, feed) {
      var b := LegacyItems(LegacyClassifier(court.id, court.kind, court.lastUpdated.value), feed.items);
      assert r == LegacySettle(arrange, cases, entries, totals, court.lastUpdated, FeedTime(feed).time, b);
      SaveAllLegacySound(arrange, LegacyStart(cases, entries), LegacyBatches(b));
    } else {
      assert r.cases == cases && r.entries == entries;
    }
  }

  /**
   * A court taken in whose items are all looked at creates one entry per distinct tuple
   * its items yield, and counts every item once: as an entry created, a duplicate, old
   * or broken.
   */
  lemma LegacyCourtAccounts(arrange: Arranger, cases: seq<LegacyCaseRow>, entries: seq<LegacyEntryRow>,
                            totals: Ingest.Totals, court: Ingest.CourtInfo, feed: LegacyFeed)
    requires LegacyTakenIn(court.lastUpdated, feed)
    ensures var r := LegacyIngestFeed(arrange, cases, entries, totals, court, feed);
      var os := LegacyOutcomes(LegacyClassifier(court.id, court.kind, court.lastUpdated.value), feed.items);
      !r.fatal ==>
        && r.totals.entries == totals.entries + |set x | x in TakenTuples(os)|
        && r.totals.entries + r.totals.duplicates + r.totals.entriesOld + r.totals.entriesBroken
           == totals.entries + totals.duplicates + totals.entriesOld + totals.entriesBroken + |feed.items|
        && r.totals.courtsBroken == totals.courtsBroken && r.totals.courtsOld == totals.courtsOld
  {
    var extract := LegacyClassifier(court.id, court.kind, court.lastUpdated.value);
    var b := LegacyItems(extract, feed.items);
    var r := LegacyIngestFeed(arrange, cases, entries, totals, court, feed);
    assert r == LegacySettle(arrange, cases, entries, totals, court.lastUpdated, FeedTime(feed).time, b);
    if !b.fatal {
      LegacyFeedBatches(extract, feed.items);
      CourtWritesEachOnce(arrange, cases, entries, LegacyBatches(b));
      SaveAllLegacyCounts(arrange, LegacyStart(cases, entries), LegacyBatches(b));
    }
  }

  // ---------------------------------------------------------------------------
  // the whole run
  // ---------------------------------------------------------------------------

  datatype LegacyRunResult = LegacyRunResult(
    cases: seq<LegacyCaseRow>, entries: seq<LegacyEntryRow>, totals: Ingest.Totals,
    watermarks: seq<Option<int>>, fatal: bool)

  type LegacyVisitor = (seq<LegacyCaseRow>, seq<LegacyEntryRow>, Ingest.Totals, Ingest.CourtInfo, LegacyFeed) -> LegacyCourtResult

  function LegacyVisiting(arrange: Arranger): LegacyVisitor {
    (cases, entries, totals, court, feed) => LegacyIngestFeed(arrange, cases, entries, totals, court, feed)
  }

  /** The courts in order, each through `LegacyIngestFeed`, until one ends the run */
  function LegacyProcess(cases: seq<LegacyCaseRow>, entries: seq<LegacyEntryRow>, totals: Ingest.Totals,
                         courts: seq<Ingest.CourtInfo>, feeds: seq<LegacyFeed>, visit: LegacyVisitor): (r: LegacyRunResult)
    requires |courts| == |feeds|
    ensures |r.watermarks| == |courts|
  {
    if courts == [] then LegacyRunResult(cases, entries, totals, [], false)
    else
      var n := |courts| - 1;
      var r := LegacyProcess(cases, entries, totals, courts[..n], feeds[..n], visit);
      if r.fatal then r.(watermarks := r.watermarks + [courts[n].lastUpdated])
      else
        var c := visit(r.cases, r.entries, r.totals, courts[n], feeds[n]);
        LegacyRunResult(c.cases, c.entries, c.totals, r.watermarks + [c.lastUpdated], c.fatal)
  }

  /** One court more on a run that has not ended */
  function LegacyNext(r: LegacyRunResult, court: Ingest.CourtInfo, feed: LegacyFeed, visit: LegacyVisitor): LegacyRunResult {
    var c := visit(r.cases, r.entries, r.totals, court, feed);
    LegacyRunResult(c.cases, c.entries, c.totals, r.watermarks + [c.lastUpdated], c.fatal)
  }

  /** The run over the first `i + 1` courts is one more step on the run over the first `i` */
  lemma LegacyProcessNext(cases: seq<LegacyCaseRow>, entries: seq<LegacyEntryRow>, totals: Ingest.Totals,
                          courts: seq<Ingest.CourtInfo>, feeds: seq<LegacyFeed>, visit: LegacyVisitor, i: nat)
    requires |courts| == |feeds| && i < |courts|
    ensures var r := LegacyProcess(cases, entries, totals, courts[..i], feeds[..i], visit);
      LegacyProcess(cases, entries, totals, courts[..i + 1], feeds[..i + 1], visit)
        == if r.fatal then r.(watermarks := r.watermarks + [courts[i].lastUpdated])
           else LegacyNext(r, courts[i], feeds[i], visit)
  {
    assert courts[..i + 1][..i] == courts[..i] && feeds[..i + 1][..i] == feeds[..i];
  }

  /** Lines 210-421: all the courts with a feed, in id order, from zero counters */
  function LegacyRun(arrange: Arranger, cases: seq<LegacyCaseRow>, entries: seq<LegacyEntryRow>,
                     courts: seq<Ingest.CourtInfo>, feeds: seq<LegacyFeed>): LegacyRunResult
    requires |courts| == |feeds|
  {
    LegacyProcess(cases, entries, Ingest.NoTotals, courts, feeds, LegacyVisiting(arrange))
  }

  /** After the run has ended, later courts keep their watermarks and the store is left alone */
  lemma {:induction false} LegacyProcessAfterFatal(cases: seq<LegacyCaseRow>, entries: seq<LegacyEntryRow>, totals: Ingest.Totals,
                                                   courts: seq<Ingest.CourtInfo>, feeds: seq<LegacyFeed>, visit: LegacyVisitor, i: nat)
    requires |courts| == |feeds| && i <= |courts|
    requires LegacyProcess(cases, entries, totals, courts[..i], feeds[..i], visit).fatal
    ensures var r := LegacyProcess(cases, entries, totals, courts, feeds, visit);
      var p := LegacyProcess(cases, entries, totals, courts[..i], feeds[..i], visit);
      && r.cases == p.cases && r.entries == p.entries && r.totals == p.totals && r.fatal
      && r.watermarks[..i] == p.watermarks
      && forall j :: i <= j < |courts| ==> r.watermarks[j] == courts[j].lastUpdated
  {
    if i < |courts| {
      var n := |courts| - 1;
      assert courts[..n][..i] == courts[..i] && feeds[..n][..i] == feeds[..i];
      LegacyProcessAfterFatal(cases, entries, totals, courts[..n], feeds[..n], visit, i);
      var q := LegacyProcess(cases, entries, totals, courts[..n], feeds[..n], visit);
      var r := LegacyProcess(cases, entries, totals, courts, feeds, visit);
      assert r == q.(watermarks := q.watermarks + [courts[n].lastUpdated]);
      LegacyAfterFatalStep(courts, i, LegacyProcess(cases, entries, totals, courts[..i], feeds[..i], visit), q, r);
    } else {
      assert courts[..i] == courts && feeds[..i] == feeds;
    }
  }

  /** The step of `LegacyProcessAfterFatal`: an ended run only appends the next court's old watermark */
  lemma LegacyAfterFatalStep(courts: seq<Ingest.CourtInfo>, i: nat, p: LegacyRunResult, q: LegacyRunResult, r: LegacyRunResult)
    requires i < |courts| && |q.watermarks| == |courts| - 1
    requires q.cases == p.cases && q.entries == p.entries && q.totals == p.totals && q.fatal
    requires q.watermarks[..i] == p.watermarks
    requires forall j :: i <= j < |courts| - 1 ==> q.watermarks[j] == courts[j].lastUpdated
    requires r == q.(watermarks := q.watermarks + [courts[|courts| - 1].lastUpdated])
    ensures r.cases == p.cases && r.entries == p.entries && r.totals == p.totals && r.fatal
    ensures r.watermarks[..i] == p.watermarks
    ensures forall j :: i <= j < |courts| ==> r.watermarks[j] == courts[j].lastUpdated
  {
    assert r.watermarks[..i] == q.watermarks[..i];
    forall j | i <= j < |courts| ensures r.watermarks[j] == courts[j].lastUpdated {
      if j < |courts| - 1 {
        assert r.watermarks[j] == q.watermarks[j];
      }
    }
  }

  /**
   * The watermarks a stopped loop leaves, those of the run for the courts it took in and
   * the old ones for the rest, are the watermarks of the whole run
   */
  lemma LegacyProcessMarks(cases: seq<LegacyCaseRow>, entries: seq<LegacyEntryRow>, totals: Ingest.Totals,
                           courts: seq<Ingest.CourtInfo>, feeds: seq<LegacyFeed>, visit: LegacyVisitor, i: nat,
                           marks: seq<Option<int>>)
    requires |courts| == |feeds| == |marks| && i <= |courts|
    requires var p := LegacyProcess(cases, entries, totals, courts[..i], feeds[..i], visit);
      && (i == |courts| || p.fatal)
      && (forall j :: 0 <= j < i ==> marks[j] == p.watermarks[j])
      && forall j :: i <= j < |courts| ==> marks[j] == courts[j].lastUpdated
    ensures var r := LegacyProcess(cases, entries, totals, courts, feeds, visit);
      var p := LegacyProcess(cases, entries, totals, courts[..i], feeds[..i], visit);
      && r.cases == p.cases && r.entries == p.entries && r.totals == p.totals && r.fatal == p.fatal
      && r.watermarks == marks
  {
    if i < |courts| {
      LegacyProcessAfterFatal(cases, entries, totals, courts, feeds, visit, i);
      var r := LegacyProcess(cases, entries, totals, courts, feeds, visit);
      assert forall j :: 0 <= j < i ==> r.watermarks[j] == r.watermarks[..i][j];
    } else {
      assert courts[..i] == courts && feeds[..i] == feeds;
    }
  }

  /** A court step that keeps the store sound and the stored entries, and never moves a watermark back */
  ghost predicate LegacyVisitSound(visit: LegacyVisitor) {
    forall cases, entries, totals, court, feed {:trigger visit(cases, entries, totals, court, feed)} ::
      Attached(cases, entries) && UniqueSites(cases) ==>
        var c := visit(cases, entries, totals, court, feed);
        && Attached(c.cases, c.entries) && UniqueSites(c.cases)
        && |entries| <= |c.entries| && c.entries[..|entries|] == entries
        && Ingest.Advanced(court.lastUpdated, c.lastUpdated)
  }

  lemma LegacyVisitingSound(arrange: Arranger)
    ensures LegacyVisitSound(LegacyVisiting(arrange))
  {
    forall cases, entries, totals, court, feed | Attached(cases, entries) && UniqueSites(cases)
      ensures var c := LegacyVisiting(arrange)(cases, entries, totals, court, feed);
        && Attached(c.cases, c.entries) && UniqueSites(c.cases)
        && |entries| <= |c.entries| && c.entries[..|entries|] == entries
        && Ingest.Advanced(court.lastUpdated, c.lastUpdated)
    {
      LegacyCourtSound(arrange, cases, entries, totals, court, feed);
      LegacyWatermarkAdvances(arrange, cases, entries, totals, court, feed);
    }
  }

  /** Every court of the run keeps the store sound and the stored entries, and the watermarks only move forward */
  lemma {:induction false} LegacyProcessSound(cases: seq<LegacyCaseRow>, entries: seq<LegacyEntryRow>, totals: Ingest.Totals,
                                              courts: seq<Ingest.CourtInfo>, feeds: seq<LegacyFeed>, visit: LegacyVisitor)
    requires |courts| == |feeds| && Attached(cases, entries) && UniqueSites(cases) && LegacyVisitSound(visit)
    ensures var r := LegacyProcess(cases, entries, totals, courts, feeds, visit);
      && Attached(r.cases, r.entries) && UniqueSites(r.cases)
      && |entries| <= |r.entries| && r.entries[..|entries|] == entries
      && forall j :: 0 <= j < |courts| ==> Ingest.Advanced(courts[j].lastUpdated, r.watermarks[j])
  {
    if courts != [] {
      var n := |courts| - 1;
      var r := LegacyProcess(cases, entries, totals, courts[..n], feeds[..n], visit);
      LegacyProcessSound(cases, entries, totals, courts[..n], feeds[..n], visit);
      if !r.fatal {
        var c := visit(r.cases, r.entries, r.totals, courts[n], feeds[n]);
        assert c.entries[..|r.entries|] == r.entries;
        assert c.entries[..|entries|] == c.entries[..|r.entries|][..|entries|];
        assert Ingest.Advanced(courts[n].lastUpdated, c.lastUpdated);
      }
    }
  }

  /** The whole legacy run keeps the store sound, keeps every stored entry, and moves watermarks only forward */
  lemma LegacyRunSound(arrange: Arranger, cases: seq<LegacyCaseRow>, entries: seq<LegacyEntryRow>,
                       courts: seq<Ingest.CourtInfo>, feeds: seq<LegacyFeed>)
    requires |courts| == |feeds| && Attached(cases, entries) && UniqueSites(cases)
    ensures var r := LegacyRun(arrange, cases, entries, courts, feeds);
      && Attached(r.cases, r.entries) && UniqueSites(r.cases)
      && |entries| <= |r.entries| && r.entries[..|entries|] == entries
      && forall j :: 0 <= j < |courts| ==> Ingest.Advanced(courts[j].lastUpdated, r.watermarks[j])
  {
    LegacyVisitingSound(arrange);
    LegacyProcessSound(cases, entries, Ingest.NoTotals, courts, feeds, LegacyVisiting(arrange));
  }

  // ---------------------------------------------------------------------------
  // the loops
  // ---------------------------------------------------------------------------

  /** A `save_everything` call with the command's counters */
  method LegacyFlushCounted(store: LegacyStore, arrange: Arranger, lastSaved: seq<LegacyCandidate>,
                            batch: seq<LegacyCandidate>, current: Ingest.Totals)
    returns (saved: seq<LegacyCandidate>, totals': Ingest.Totals)
    requires store.Valid()
    modifies store
    ensures store.Valid()
    ensures var f := LegacyFlush(arrange, old(store.cases), old(store.entries), lastSaved, batch);
      && store.cases == f.cases && store.entries == f.entries && saved == f.lastSaved
      && totals' == LegacyAdded(current, f)
  {
    var duplicates, cases, entries;
    saved, duplicates, cases, entries := SaveEverything(store, arrange, lastSaved, batch);
    totals' := current.(cases := current.cases + cases, entries := current.entries + entries,
                        duplicates := current.duplicates + duplicates);
  }

  /** The loop state of `TakeLegacyItems` is the batching `b` after the flushes it has made */
  predicate LegacyMirrors(arrange: Arranger, cases: seq<LegacyCaseRow>, entries: seq<LegacyEntryRow>,
                          pending: seq<LegacyCandidate>, lastSaved: seq<LegacyCandidate>, current: Ingest.Totals,
                          fatal: bool, b: LegacyBatching, start: LegacyFlushResult, totals: Ingest.Totals)
  {
    var s := SaveAllLegacy(arrange, start, b.flushed);
    && pending == b.pending && fatal == b.fatal && lastSaved == s.lastSaved
    && cases == s.cases && entries == s.entries && current == LegacyTallied(totals, b, s)
  }

  /** An item that does not reach the flush threshold leaves the store alone */
  lemma LegacyMirrorsQuiet(arrange: Arranger, cases: seq<LegacyCaseRow>, entries: seq<LegacyEntryRow>,
                           lastSaved: seq<LegacyCandidate>, current: Ingest.Totals, b: LegacyBatching,
                           start: LegacyFlushResult, totals: Ingest.Totals, o: LegacyOutcome)
    requires LegacyMirrors(arrange, cases, entries, b.pending, lastSaved, current, false, b, start, totals)
    requires !(o.Taken? && |b.pending| + 1 == LegacyFlushSize)
    ensures var nb := LegacyStepOn(b, o);
      LegacyMirrors(arrange, cases, entries, nb.pending, lastSaved,
                    current.(entriesOld := current.entriesOld + (if o.Stale? then 1 else 0),
                             entriesBroken := current.entriesBroken + (if o.Dropped? then 1 else 0)),
                    o.Fatal?, nb, start, totals)
  {
    var nb := LegacyStepOn(b, o);
    assert nb.flushed == b.flushed;
    var s := SaveAllLegacy(arrange, start, b.flushed);
    var t := LegacyTallied(totals, nb, s);
    var u := current.(entriesOld := current.entriesOld + (if o.Stale? then 1 else 0),
                      entriesBroken := current.entriesBroken + (if o.Dropped? then 1 else 0));
    assert t.cases == u.cases && t.entries == u.entries && t.duplicates == u.duplicates;
    assert t.entriesOld == u.entriesOld && t.entriesBroken == u.entriesBroken;
    assert t.courtsBroken == u.courtsBroken && t.courtsOld == u.courtsOld;
  }

  /** The 150th pending tuple: the mirrored state after the flush `f` of `x`, given how the flushes sum up */
  lemma MirrorsAfterFlush(arrange: Arranger, start: LegacyFlushResult, totals: Ingest.Totals, b: LegacyBatching,
                          x: seq<LegacyCandidate>, s: LegacyFlushResult, f: LegacyFlushResult, current: Ingest.Totals)
    requires !b.fatal
    requires s == SaveAllLegacy(arrange, start, b.flushed) && current == LegacyTallied(totals, b, s)
    requires SaveAllLegacy(arrange, start, b.flushed + [x])
      == LegacyFlushResult(f.cases, f.entries, f.lastSaved, s.duplicates + f.duplicates,
                           s.casesCreated + f.casesCreated, s.entriesCreated + f.entriesCreated)
    ensures LegacyMirrors(arrange, f.cases, f.entries, [], f.lastSaved, LegacyAdded(current, f),
                          false, b.(pending := [], flushed := b.flushed + [x]), start, totals)
  {
    var nb := b.(pending := [], flushed := b.flushed + [x]);
    var s' := SaveAllLegacy(arrange, start, nb.flushed);
    var t := LegacyTallied(totals, nb, s');
    assert t.cases == current.cases + f.casesCreated;
    assert t.entries == current.entries + f.entriesCreated;
    assert t.duplicates == current.duplicates + f.duplicates;
    assert t.entriesOld == current.entriesOld && t.entriesBroken == current.entriesBroken;
    assert t.courtsBroken == current.courtsBroken && t.courtsOld == current.courtsOld;
  }

  /** The 150th pending tuple: `save_everything` on the full batch, then nothing is pending */
  method FlushFullBatch(store: LegacyStore, arrange: Arranger, pending: seq<LegacyCandidate>, c: LegacyCandidate,
                        lastSaved: seq<LegacyCandidate>, current: Ingest.Totals,
                        ghost b: LegacyBatching, ghost start: LegacyFlushResult, ghost totals: Ingest.Totals)
    returns (lastSaved': seq<LegacyCandidate>, current': Ingest.Totals)
    requires store.Valid() && |pending| + 1 == LegacyFlushSize
    requires LegacyMirrors(arrange, store.cases, store.entries, pending, lastSaved, current, false, b, start, totals)
    modifies store
    ensures store.Valid()
    ensures LegacyMirrors(arrange, store.cases, store.entries, [], lastSaved', current', false,
                          LegacyStepOn(b, Taken(c)), start, totals)
  {
    var x := pending + [c];
    assert LegacyStepOn(b, Taken(c)) == b.(pending := [], flushed := b.flushed + [x]);
    SaveAllLegacySnoc(arrange, start, b.flushed, x);
    ghost var s, f := SaveAllLegacy(arrange, start, b.flushed), LegacyFlush(arrange, store.cases, store.entries, lastSaved, x);
    lastSaved', current' := LegacyFlushCounted(store, arrange, lastSaved, x, current);
    MirrorsAfterFlush(arrange, start, totals, b, x, s, f, current);
  }

  /** One item of the loop whose outcome `o` is known */
  method LegacyItemStep(store: LegacyStore, arrange: Arranger, o: LegacyOutcome, pending: seq<LegacyCandidate>,
                        lastSaved: seq<LegacyCandidate>, current: Ingest.Totals,
                        ghost b: LegacyBatching, ghost start: LegacyFlushResult, ghost totals: Ingest.Totals)
    returns (pending': seq<LegacyCandidate>, lastSaved': seq<LegacyCandidate>, current': Ingest.Totals, fatal: bool)
    requires store.Valid()
    requires LegacyMirrors(arrange, store.cases, store.entries, pending, lastSaved, current, false, b, start, totals)
    modifies store
    ensures store.Valid()
    ensures LegacyMirrors(arrange, store.cases, store.entries, pending', lastSaved', current', fatal,
                          LegacyStepOn(b, o), start, totals)
  {
    if o.Taken? && |pending| + 1 == LegacyFlushSize {
      lastSaved', current' := FlushFullBatch(store, arrange, pending, o.candidate, lastSaved, current, b, start, totals);
      pending', fatal := [], false;
    } else {
      LegacyMirrorsQuiet(arrange, store.cases, store.entries, lastSaved, current, b, start, totals, o);
      pending', lastSaved', current', fatal := pending, lastSaved, current, false;
      match o {
        case Fatal => fatal := true;
        case Stale => current' := current.(entriesOld := current.entriesOld + 1);
        case Dropped => current' := current.(entriesBroken := current.entriesBroken + 1);
        case Taken(c) => pending' := pending + [c];
      }
    }
  }

  /** Lines 322-415: the item loop of a court taken in, with its flushes of 150 */
  method TakeLegacyItems(store: LegacyStore, arrange: Arranger, extract: Track.RawItem -> LegacyOutcome,
                         items: seq<Track.RawItem>, totals: Ingest.Totals)
    returns (pending: seq<LegacyCandidate>, lastSaved: seq<LegacyCandidate>, totals': Ingest.Totals, fatal: bool)
    requires store.Valid()
    modifies store
    ensures store.Valid()
    ensures var b := LegacyItems(extract, items);
      var s := SaveAllLegacy(arrange, LegacyStart(old(store.cases), old(store.entries)), b.flushed);
      && pending == b.pending && fatal == b.fatal && lastSaved == s.lastSaved
      && store.cases == s.cases && store.entries == s.entries && totals' == LegacyTallied(totals, b, s)
  {
    ghost var start := LegacyStart(store.cases, store.entries);
    pending, lastSaved, totals', fatal := [], [], totals, false;
    var i := 0;
    while i < |items| && !fatal
      invariant i <= |items| && store.Valid()
      invariant LegacyMirrors(arrange, store.cases, store.entries, pending, lastSaved, totals', fatal,
                              LegacyItems(extract, items[..i]), start, totals)
      decreases |items| - i
    {
      LegacyItemsNext(extract, items, i);
      pending, lastSaved, totals', fatal :=
        LegacyItemStep(store, arrange, extract(items[i]), pending, lastSaved, totals', LegacyItems(extract, items[..i]), start, totals);
      i := i + 1;
    }
    if i < |items| {
      LegacyItemsAfterFatal(extract, items, i);
    } else {
      assert items[..i] == items;
    }
  }

  /**
   * Lines 322-421 for a court taken in: the item loop with its flushes of 150, then,
   * unless an item ended the run, the last flush and the new watermark.
   */
  method TakeLegacyCourt(store: LegacyStore, arrange: Arranger, court: Court, items: seq<Track.RawItem>, built: int,
                         totals: Ingest.Totals, extract: Track.RawItem -> LegacyOutcome)
    returns (totals': Ingest.Totals, fatal: bool)
    requires store.Valid()
    modifies store, court
    ensures store.Valid()
    ensures var b := LegacyItems(extract, items);
      var s := SaveAllLegacy(arrange, LegacyStart(old(store.cases), old(store.entries)), b.flushed);
      var t := LegacyTallied(totals, b, s);
      && fatal == b.fatal
      && (b.fatal ==> store.cases == s.cases && store.entries == s.entries && totals' == t
                      && court.lastUpdated == old(court.lastUpdated))
      && (!b.fatal ==>
            var f := LegacyFlush(arrange, s.cases, s.entries, s.lastSaved, b.pending);
            && store.cases == f.cases && store.entries == f.entries && court.lastUpdated == Some(built)
            && totals' == LegacyAdded(t, f))
  {
    var pending, lastSaved;
    pending, lastSaved, totals', fatal := TakeLegacyItems(store, arrange, extract, items, totals);
    if !fatal {
      lastSaved, totals' := LegacyFlushCounted(store, arrange, lastSaved, pending, totals');
      court.lastUpdated := Some(built);
    }
  }

  /** Lines 273-421 for one court */
  method IngestLegacyCourt(store: LegacyStore, arrange: Arranger, court: Court, feed: LegacyFeed, totals: Ingest.Totals)
    returns (totals': Ingest.Totals, fatal: bool)
    requires store.Valid()
    modifies store, court
    ensures store.Valid()
    ensures var r := LegacyIngestFeed(arrange, old(store.cases), old(store.entries), totals,
                                      Ingest.CourtInfo(court.id, court.kind, old(court.lastUpdated)), feed);
      && store.cases == r.cases && store.entries == r.entries && totals' == r.totals
      && court.lastUpdated == r.lastUpdated && fatal == r.fatal
  {
    totals', fatal := totals, false;
    if !feed.hasChannel || feed.items == [] {
      return;
    }
    var built := feed.items[0].pubDate;
    if !built.At? {
      totals' := totals.(courtsBroken := totals.courtsBroken + 1);
      return;
    }
    if court.lastUpdated.None? {
      fatal := true;
      return;
    }
    if court.lastUpdated.value >= built.time {
      totals' := totals.(courtsOld := totals.courtsOld + 1);
      return;
    }
    var extract := LegacyClassifier(court.id, court.kind, court.lastUpdated.value);
    ghost var b := LegacyItems(extract, feed.items);
    if b.fatal {
      LegacySettleFatal(arrange, store.cases, store.entries, totals, court.lastUpdated, built.time, b);
    } else {
      LegacySettleLast(arrange, store.cases, store.entries, totals, court.lastUpdated, built.time, b);
    }
    totals', fatal := TakeLegacyCourt(store, arrange, court, feed.items, built.time, totals, extract);
  }

  /**
   * The loop of `Command.handle` has taken in the first `i` courts: the store, the counters
   * and those courts' watermarks are those of the run over them; the later courts are untouched
   */
  ghost predicate LegacyProgress(store: LegacyStore, arrange: Arranger, courts: seq<Court>, feeds: seq<LegacyFeed>,
                                 infos: seq<Ingest.CourtInfo>, cases0: seq<LegacyCaseRow>, entries0: seq<LegacyEntryRow>,
                                 i: nat, totals: Ingest.Totals, fatal: bool, run: LegacyRunResult)
    reads store, courts
  {
    && |infos| == |courts| == |feeds| && i <= |courts| && store.Valid()
    && run == LegacyProcess(cases0, entries0, Ingest.NoTotals, infos[..i], feeds[..i], LegacyVisiting(arrange))
    && store.cases == run.cases && store.entries == run.entries && totals == run.totals && fatal == run.fatal
    && |run.watermarks| == i && (forall j :: 0 <= j < i ==> courts[j].lastUpdated == run.watermarks[j])
    && forall j :: i <= j < |courts| ==> infos[j] == Ingest.CourtInfo(courts[j].id, courts[j].kind, courts[j].lastUpdated)
  }

  /** One court of the loop in `Command.handle`, taken in while the run goes on */
  method AdvanceLegacyCourt(store: LegacyStore, arrange: Arranger, courts: seq<Court>, feeds: seq<LegacyFeed>,
                            ghost infos: seq<Ingest.CourtInfo>, ghost cases0: seq<LegacyCaseRow>,
                            ghost entries0: seq<LegacyEntryRow>, i: nat, totals: Ingest.Totals, ghost run: LegacyRunResult)
    returns (totals': Ingest.Totals, fatal: bool, ghost run': LegacyRunResult)
    requires i < |courts| && forall j, k :: 0 <= j < k < |courts| ==> courts[j] != courts[k]
    requires LegacyProgress(store, arrange, courts, feeds, infos, cases0, entries0, i, totals, false, run)
    modifies store, courts[i]
    ensures LegacyProgress(store, arrange, courts, feeds, infos, cases0, entries0, i + 1, totals', fatal, run')
  {
    LegacyProcessNext(cases0, entries0, Ingest.NoTotals, infos, feeds, LegacyVisiting(arrange), i);
    run' := LegacyNext(run, infos[i], feeds[i], LegacyVisiting(arrange));
    assert forall j :: 0 <= j < i ==> run'.watermarks[j] == run.watermarks[j];
    totals', fatal := IngestLegacyCourt(store, arrange, courts[i], feeds[i], totals);
    assert forall j :: 0 <= j < |courts| && j != i ==> courts[j].lastUpdated == old(courts[j].lastUpdated);
  }

  /**
   * Legacy `Command.handle` (lines 210-421): every court with a feed, in id order, from
   * zero counters; an uncaught error ends the run and leaves the later courts untouched.
   */
  method LegacyHandle(store: LegacyStore, arrange: Arranger, courts: seq<Court>, feeds: seq<LegacyFeed>)
    returns (totals: Ingest.Totals, fatal: bool)
    requires store.Valid() && |courts| == |feeds|
    requires forall i, j :: 0 <= i < j < |courts| ==> courts[i] != courts[j]
    modifies store, courts
    ensures store.Valid()
    ensures var r := LegacyRun(arrange, old(store.cases), old(store.entries), old(Ingest.Infos(courts)), feeds);
      && store.cases == r.cases && store.entries == r.entries && totals == r.totals && fatal == r.fatal
      && Ingest.Watermarks(courts) == r.watermarks
  {
    ghost var infos := Ingest.Infos(courts);
    ghost var cases0, entries0 := store.cases, store.entries;
    totals, fatal := Ingest.NoTotals, false;
    var i := 0;
    ghost var run := LegacyRunResult(cases0, entries0, Ingest.NoTotals, [], false);
    while i < |courts| && !fatal
      invariant LegacyProgress(store, arrange, courts, feeds, infos, cases0, entries0, i, totals, fatal, run)
      decreases |courts| - i
    {
      totals, fatal, run := AdvanceLegacyCourt(store, arrange, courts, feeds, infos, cases0, entries0, i, totals, run);
      i := i + 1;
    }
    LegacyProcessMarks(cases0, entries0, Ingest.NoTotals, infos, feeds, LegacyVisiting(arrange), i, Ingest.Watermarks(courts));
  }
}
