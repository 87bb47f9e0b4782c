/**
 * The court catalogue loader: for each row of the PACER court lookup table it decides the
 * court's type and display name, derives its ECF base URL, feed URL, info URL and website,
 * and decides from the downloaded feed and info page whether the court has a usable RSS
 * feed, whether that feed publishes every filing and which filing types it lists.
 *
 * The downloads are inputs: a feed download is `None` when the connection failed and the
 * parsed document otherwise, and an info page download is `NoResponse` on a timeout or a
 * connection failure.
 */
module LoadCourts {
  import opened Wrappers
  import opened Text
  import opened Courts

  // ---------------------------------------------------------------------------
  // get_type
  // ---------------------------------------------------------------------------

  /** Court names that are never saved, whatever their URL */
  predicate ExcludedName(rawName: string) {
    Contains(rawName, "Pacer Case") || Contains(rawName, "(web)")
    || Contains(rawName, "(asbestos)") || Contains(rawName, "BAP")
  }

  /** The California rule: an `ecf.ca` URL is an appeals court unless it is a district or bankruptcy one */
  predicate AppealsUrl(ecfUrl: string) {
    Contains(ecfUrl, "ecf.ca") && !Contains(ecfUrl, "b.usc") && !Contains(ecfUrl, "d.usc")
  }

  /** The URL markers of the three national trial courts, checked before the district marker */
  predicate NationalUrl(ecfUrl: string) {
    Contains(ecfUrl, "ecf.jpml") || Contains(ecfUrl, "ecf.cofc") || Contains(ecfUrl, "ecf.cit")
  }

  /**
   * `get_type`: the court type of a lookup row, `None` for a row that is not saved. Each type
   * is characterised by what its name and URL must and must not contain.
   */
  function GetType(rawName: string, ecfUrl: string): (r: Option<CourtType>)
    ensures r == Some(Supreme) <==> Contains(rawName, "Supreme Court")
    ensures r.Some? && r != Some(Supreme) ==> !Contains(rawName, "Supreme Court") && !ExcludedName(rawName)
    ensures r == Some(Appeals) <==>
      !Contains(rawName, "Supreme Court") && !ExcludedName(rawName) && AppealsUrl(ecfUrl)
    ensures r == Some(Multidistrict) <==>
      !Contains(rawName, "Supreme Court") && !ExcludedName(rawName) && !AppealsUrl(ecfUrl)
      && Contains(ecfUrl, "ecf.jpml")
    ensures r == Some(FederalClaims) <==>
      !Contains(rawName, "Supreme Court") && !ExcludedName(rawName) && !AppealsUrl(ecfUrl)
      && !Contains(ecfUrl, "ecf.jpml") && Contains(ecfUrl, "ecf.cofc")
    ensures r == Some(InternationalTrade) <==>
      !Contains(rawName, "Supreme Court") && !ExcludedName(rawName) && !AppealsUrl(ecfUrl)
      && !Contains(ecfUrl, "ecf.jpml") && !Contains(ecfUrl, "ecf.cofc") && Contains(ecfUrl, "ecf.cit")
    // a `d.usc` URL can never be the California appeals case, so that test drops out here
    ensures r == Some(District) <==>
      !Contains(rawName, "Supreme Court") && !ExcludedName(rawName) && !NationalUrl(ecfUrl)
      && Contains(ecfUrl, "d.usc")
    // nor can a `b.usc` one
    ensures r == Some(Bankruptcy) <==>
      !Contains(rawName, "Supreme Court") && !ExcludedName(rawName) && !NationalUrl(ecfUrl)
      && !Contains(ecfUrl, "d.usc") && Contains(ecfUrl, "b.usc")
    ensures r.None? <==>
      !Contains(rawName, "Supreme Court")
      && (ExcludedName(rawName)
          || (!AppealsUrl(ecfUrl) && !NationalUrl(ecfUrl)
              && !Contains(ecfUrl, "d.usc") && !Contains(ecfUrl, "b.usc")))
  {
    if Contains(rawName, "Supreme Court") then Some(Supreme)
    else if Contains(rawName, "Pacer Case") then None
    else if Contains(rawName, "(web)") then None
    else if Contains(rawName, "(asbestos)") then None
    else if Contains(rawName, "BAP") then None
    else if Contains(ecfUrl, "ecf.ca") && !Contains(ecfUrl, "b.usc") && !Contains(ecfUrl, "d.usc") then Some(Appeals)
    else if Contains(ecfUrl, "ecf.jpml") then Some(Multidistrict)
    else if Contains(ecfUrl, "ecf.cofc") then Some(FederalClaims)
    else if Contains(ecfUrl, "ecf.cit") then Some(InternationalTrade)
    else if Contains(ecfUrl, "d.usc") then Some(District)
    else if Contains(ecfUrl, "b.usc") then Some(Bankruptcy)
    else None
  }

  /** The name is checked first: a Supreme Court name or an excluded name decides whatever the URL */
  lemma GetTypeNameFirst(rawName: string, url1: string, url2: string)
    requires Contains(rawName, "Supreme Court") || ExcludedName(rawName)
    ensures GetType(rawName, url1) == GetType(rawName, url2)
  {
  }

  /** A URL that carries both markers makes a district court: `d.usc` wins over `b.usc` and `ecf.ca` */
  lemma DistrictBeatsBankruptcy(rawName: string, ecfUrl: string)
    requires !Contains(rawName, "Supreme Court") && !ExcludedName(rawName)
    requires Contains(ecfUrl, "d.usc") && Contains(ecfUrl, "b.usc") && !NationalUrl(ecfUrl)
    ensures GetType(rawName, ecfUrl) == Some(District)
  {
  }

  // ---------------------------------------------------------------------------
  // get_name
  // ---------------------------------------------------------------------------

  /** The six literals `get_name` deletes, in the order it deletes them */
  const NameParts: seq<string> :=
    ["U.S. Court of ", "Appeals, ", " Bankruptcy Court", " District Court", " of the United States", " Bankruptcy"]

  /** None of the deleted literals occurs in `s` */
  predicate NoNamePart(s: string) {
    forall k :: 0 <= k < |NameParts| ==> !Contains(s, NameParts[k])
  }

  /** The literals of `parts` deleted from `s` one after the other */
  function DeleteAll(s: string, parts: seq<string>): (r: string)
    requires forall k :: 0 <= k < |parts| ==> parts[k] != []
    ensures |r| <= |s|
    decreases |parts|
  {
    if parts == [] then s else DeleteAll(Replace(s, parts[0], ""), parts[1..])
  }

  /** Deleting literals that do not occur changes nothing */
  lemma {:induction false} DeleteAllAbsent(s: string, parts: seq<string>)
    requires forall k :: 0 <= k < |parts| ==> parts[k] != [] && !Contains(s, parts[k])
    ensures DeleteAll(s, parts) == s
  {
    if parts != [] {
      ReplaceAbsent(s, parts[0], "");
      DeleteAllAbsent(s, parts[1..]);
    }
  }

  /** Two leading literals, each present once, are deleted and the later literals find nothing */
  lemma {:induction false} DeleteTwoLeading(p0: string, p1: string, rest: string, ps: seq<string>)
    requires p0 != [] && p1 != [] && p0[0] !in p1
    requires !Contains(rest, p0) && !Contains(rest, p1)
    requires forall k :: 0 <= k < |ps| ==> ps[k] != [] && !Contains(rest, ps[k])
    ensures DeleteAll(p0 + (p1 + rest), [p0, p1] + ps) == rest
  {
    assert !Contains(p1 + rest, p0) by {
      if Contains(p1 + rest, p0) {
        ContainsAfter(p1, rest, p0);
      }
    }
    var parts := [p0, p1] + ps;
    ReplaceLeading(p0, p1 + rest, "");
    assert "" + (p1 + rest) == p1 + rest;
    assert parts[0] == p0 && parts[1..] == [p1] + ps;
    assert DeleteAll(p0 + (p1 + rest), parts) == DeleteAll(p1 + rest, [p1] + ps);
    ReplaceLeading(p1, rest, "");
    assert "" + rest == rest;
    assert ([p1] + ps)[0] == p1 && ([p1] + ps)[1..] == ps;
    assert DeleteAll(p1 + rest, [p1] + ps) == DeleteAll(rest, ps);
    DeleteAllAbsent(rest, ps);
  }

  /** `get_name`: the raw name with the six literals deleted one after the other, then trimmed */
  function GetName(rawName: string): (r: string)
    ensures IsTrimmed(r)
    ensures |r| <= |rawName|
  {
    var r := Strip(DeleteAll(rawName, NameParts));
    assert |r| <= |DeleteAll(rawName, NameParts)|;
    r
  }

  /** Deleting absent literals changes nothing: such a name is only trimmed */
  lemma GetNameUntouched(rawName: string)
    requires NoNamePart(rawName)
    ensures GetName(rawName) == Strip(rawName)
  {
    DeleteAllAbsent(rawName, NameParts);
  }

  /** A courts of appeals row, `U.S. Court of Appeals, <circuit>`, is displayed as the circuit alone */
  lemma GetNameAppeals(circuit: string)
    requires NoNamePart(circuit)
    ensures GetName("U.S. Court of Appeals, " + circuit) == Strip(circuit)
  {
    assert "U.S. Court of Appeals, " + circuit == NameParts[0] + (NameParts[1] + circuit);
    assert NameParts == [NameParts[0], NameParts[1]] + NameParts[2..];
    assert NameParts[0][0] !in NameParts[1];
    assert !Contains(circuit, NameParts[0]) && !Contains(circuit, NameParts[1]);
    DeleteTwoLeading(NameParts[0], NameParts[1], circuit, NameParts[2..]);
  }

  // ---------------------------------------------------------------------------
  // URL derivation in update_court
  // ---------------------------------------------------------------------------

  /** The placeholder base URL given to the Supreme Court, which has no ECF site */
  const SupremeBase: string := "https://ecf.supremecourt.gov/"

  /** A non-empty link with a `/` appended unless it already ends in one */
  function WithSlash(href: string): (r: string)
    requires href != []
    ensures EndsWith(r, "/")
    ensures StartsWith(r, href) && |href| <= |r| <= |href| + 1
    ensures EndsWith(href, "/") ==> r == href
  {
    if href[|href| - 1] != '/' then href + "/" else href
  }

  /** Appending the slash a second time changes nothing */
  lemma WithSlashIdempotent(href: string)
    requires href != []
    ensures WithSlash(WithSlash(href)) == WithSlash(href)
  {
  }

  /**
   * The base ECF URL of a row: the placeholder for the Supreme Court, else the ECF link with
   * a trailing slash. `None` stands for the empty link, whose last character cannot be read,
   * so the row's update fails.
   */
  function BaseEcfUrl(rawName: string, appHref: string): (r: Option<string>)
    ensures r.None? <==> !Contains(rawName, "Supreme Court") && appHref == []
    ensures r.Some? ==> EndsWith(r.value, "/")
    ensures Contains(rawName, "Supreme Court") ==> r == Some(SupremeBase)
    ensures r.Some? && !Contains(rawName, "Supreme Court") ==>
      StartsWith(r.value, appHref) && |r.value| <= |appHref| + 1
  {
    if Contains(rawName, "Supreme Court") then
      assert SupremeBase[|SupremeBase| - 1..] == "/";
      Some(SupremeBase)
    else if appHref == [] then None
    else Some(WithSlash(appHref))
  }

  const InfoHost: string := "https://pacer.uscourts.gov"
  /** The servlet path that marks an appeals court's info page */
  const TransportRoom: string := "servlet/TransportRoom"
  const AppealsInfoPath: string := "n/beam/" + TransportRoom + "?servlet=CourtInfo.jsp"
  const TrialFeedPath: string := "cgi-bin/rss_outside.pl"
  const AppealsFeedPath: string := "cmecf/servlet/TransportRoom?servlet=RSSGenerator"

  /** The page that says whether the court offers a feed: on the ECF site for appeals courts, else on PACER */
  function InfoUrl(t: CourtType, base: string, nameHref: string): (r: string)
    ensures t == Appeals ==> StartsWith(r, base) && Contains(r, TransportRoom)
    ensures t != Appeals ==> StartsWith(r, InfoHost) && EndsWith(r, nameHref)
  {
    if t == Appeals then
      assert base + AppealsInfoPath == (base + "n/beam/") + TransportRoom + "?servlet=CourtInfo.jsp";
      ContainsMiddle(base + "n/beam/", TransportRoom, "?servlet=CourtInfo.jsp");
      base + AppealsInfoPath
    else InfoHost + nameHref
  }

  /** The RSS feed address, recorded even when the feed turns out not to work; the Supreme Court has none */
  function FeedUrl(t: CourtType, base: string): (r: string)
    ensures r == [] <==> t == Supreme
    ensures t != Supreme ==> StartsWith(r, base)
    ensures t == Appeals ==> EndsWith(r, AppealsFeedPath)
    ensures t != Supreme && t != Appeals ==> EndsWith(r, TrialFeedPath)
  {
    match t
    case District | Bankruptcy | FederalClaims | InternationalTrade | Multidistrict => base + TrialFeedPath
    case Appeals => base + AppealsFeedPath
    case Supreme => ""
  }

  /** The court website: the base with `https://ecf` turned into `http://www` */
  function Website(base: string): string {
    Replace(base, "https://ecf", "http://www")
  }

  /** An ECF host `https://ecf<rest>` becomes `http://www<rest>` */
  lemma WebsiteOfEcf(rest: string)
    requires !Contains(rest, "https://ecf")
    ensures Website("https://ecf" + rest) == "http://www" + rest
  {
    ReplaceLeading("https://ecf", rest, "http://www");
  }

  /** A base without the ECF prefix anywhere is its own website */
  lemma WebsiteOfOther(base: string)
    requires !Contains(base, "https://ecf")
    ensures Website(base) == base
  {
    ReplaceAbsent(base, "https://ecf", "http://www");
  }

  // ---------------------------------------------------------------------------
  // check_feed
  // ---------------------------------------------------------------------------

  /** The parts of a parsed feed document that are read: the channel, the first title and the channel description */
  datatype FeedDoc = FeedDoc(hasChannel: bool, title: Option<string>, description: Option<string>)

  /** What the info page download returned: the response's success flag, its text, and whether an `fa-rss` icon is on it */
  datatype InfoResponse = NoResponse | Response(ok: bool, text: string, rssIcon: bool)

  /** The three values `check_feed` returns */
  datatype FeedStatus = FeedStatus(hasFeed: bool, publishesAll: bool, filingTypes: string)

  const AllFilings: string := "All filings"

  /**
   * The filing-types decision on a channel description: whether the feed publishes all
   * filings and the filing-types text kept for it. The description's first 24 characters
   * are its fixed preamble.
   */
  function FilingTypes(t: string): (r: (bool, string))
    ensures r.0 <==> |t| > 24 && Contains(Lower(t[24..]), "all") && Contains(t, "entries of type")
    ensures r.0 ==> r.1 == AllFilings
    ensures !r.0 ==> EndsWith(t, r.1)
    ensures r.1 == [] <==> |t| <= 24
    ensures !r.0 && |t| > 24 ==> (r.1 == t <==> !Contains(t, "entries of type"))
    ensures !r.0 && |t| > 24 && Contains(t, "entries of type") ==> r.1 == t[24..]
  {
    if |t| > 24 && Contains(Lower(t[24..]), "all") && Contains(t, "entries of type") then (true, AllFilings)
    else if |t| > 24 && t[24..] != [] && !Contains(t, "entries of type") then (false, t)
    else if |t| > 24 && t[24..] != [] then (false, t[24..])
    else
      assert t[|t|..] == [];
      (false, [])
  }

  /** The feed half of `check_feed`: it passes on a channel with a title free of `404` and a configured description */
  function FeedCheck(feedUrl: string, feed: Option<FeedDoc>): (r: FeedStatus)
    ensures r.hasFeed <==>
      feedUrl != [] && feed.Some? && feed.value.hasChannel && feed.value.title.Some?
      && !Contains(feed.value.title.value, "404") && feed.value.description.Some?
      && !Contains(feed.value.description.value, "not configured")
    ensures r.hasFeed ==> (r.publishesAll, r.filingTypes) == FilingTypes(feed.value.description.value)
    ensures !r.hasFeed ==> !r.publishesAll && r.filingTypes == []
  {
    if feedUrl == [] then FeedStatus(false, false, [])
    else
      match feed
      case None => FeedStatus(false, false, [])
      case Some(doc) =>
        if !doc.hasChannel || doc.title.None? || Contains(doc.title.value, "404") then FeedStatus(false, false, [])
        else if doc.description.Some? && Contains(doc.description.value, "not configured") then
          FeedStatus(false, false, [])
        else if doc.description.Some? then
          var ft := FilingTypes(doc.description.value);
          FeedStatus(true, ft.0, ft.1)
        else FeedStatus(false, false, [])
  }

  /**
   * The info half of `check_feed`: an appeals info page must mention `RSS Feed`, any other
   * info page must show the RSS icon; a failed download or an error status fails.
   */
  function InfoCheck(infoUrl: string, resp: InfoResponse): (r: bool)
    ensures r ==> resp.Response? && resp.ok
    ensures resp.Response? && resp.ok ==>
      (r <==> if Contains(infoUrl, TransportRoom) then Contains(resp.text, "RSS Feed") else resp.rssIcon)
  {
    if Contains(infoUrl, TransportRoom) then resp.Response? && resp.ok && Contains(resp.text, "RSS Feed")
    else if resp.Response? && resp.ok then resp.rssIcon
    else false
  }

  /** `check_feed`: a court listed with a feed on its info page has a feed even when the feed itself fails */
  function CheckFeed(infoUrl: string, feedUrl: string, feed: Option<FeedDoc>, resp: InfoResponse): (r: FeedStatus)
    ensures r.hasFeed == (FeedCheck(feedUrl, feed).hasFeed || InfoCheck(infoUrl, resp))
    ensures FeedCheck(feedUrl, feed).hasFeed ==> r == FeedCheck(feedUrl, feed)
    ensures !FeedCheck(feedUrl, feed).hasFeed ==> !r.publishesAll && r.filingTypes == []
    ensures feedUrl == [] ==> r == FeedStatus(InfoCheck(infoUrl, resp), false, [])
    ensures r.publishesAll ==> r.hasFeed && r.filingTypes == AllFilings
  {
    var f := FeedCheck(feedUrl, feed);
    if !f.hasFeed && InfoCheck(infoUrl, resp) then FeedStatus(true, false, []) else f
  }

  // ---------------------------------------------------------------------------
  // update_court
  // ---------------------------------------------------------------------------

  /** A row of the lookup table: the court name, the ECF link and the link of the name cell */
  datatype CourtRow = CourtRow(rawName: string, appHref: string, nameHref: string)

  /** The fields `update_court` writes to the court record */
  datatype CourtRecord = CourtRecord(
    name: string, kind: CourtType, hasFeed: bool, feedUrl: string, website: string,
    publishesAll: bool, filingTypes: string)

  /** What happens to a row: not saved, an update that fails on an empty ECF link, or the record written */
  datatype RowOutcome = Skipped | Crashed | Loaded(record: CourtRecord)

  /**
   * `update_court` up to the database write. The downloads are given as functions of the URL
   * requested: `feeds` for the feed, `pages` for the info page.
   */
  function UpdateCourt(row: CourtRow, feeds: string -> Option<FeedDoc>, pages: string -> InfoResponse): (r: RowOutcome)
    ensures r.Crashed? <==> BaseEcfUrl(row.rawName, row.appHref).None?
    ensures r.Skipped? <==>
      BaseEcfUrl(row.rawName, row.appHref).Some? && GetType(row.rawName, BaseEcfUrl(row.rawName, row.appHref).value).None?
    ensures r.Loaded? ==>
      var base := BaseEcfUrl(row.rawName, row.appHref).value;
      var info := InfoUrl(r.record.kind, base, row.nameHref);
      Some(r.record.kind) == GetType(row.rawName, base)
      && r.record.name == GetName(row.rawName)
      && r.record.feedUrl == FeedUrl(r.record.kind, base)
      && r.record.website == Website(base)
      && FeedStatus(r.record.hasFeed, r.record.publishesAll, r.record.filingTypes)
         == CheckFeed(info, r.record.feedUrl, feeds(r.record.feedUrl), pages(info))
  {
    match BaseEcfUrl(row.rawName, row.appHref)
    case None => Crashed
    case Some(base) =>
      match GetType(row.rawName, base)
      case None => Skipped
      case Some(t) =>
        var info := InfoUrl(t, base, row.nameHref);
        var feedUrl := FeedUrl(t, base);
        var status := CheckFeed(info, feedUrl, feeds(feedUrl), pages(info));
        Loaded(CourtRecord(GetName(row.rawName), t, status.hasFeed, feedUrl, Website(base),
          status.publishesAll, status.filingTypes))
  }

  /** Every saved court has a trimmed name, and a feed that publishes everything is a working feed */
  lemma LoadedRecordShape(row: CourtRow, feeds: string -> Option<FeedDoc>, pages: string -> InfoResponse)
    requires UpdateCourt(row, feeds, pages).Loaded?
    ensures var c := UpdateCourt(row, feeds, pages).record;
      IsTrimmed(c.name) && (c.publishesAll ==> c.hasFeed && c.filingTypes == AllFilings)
      && (c.feedUrl == [] <==> c.kind == Supreme)
  {
  }

  /**
   * The Supreme Court row: whatever its ECF link, it is saved with the placeholder's website
   * and no feed URL, so whether it has a feed rests on the PACER info page alone.
   */
  lemma SupremeCourtRow(row: CourtRow, feeds: string -> Option<FeedDoc>, pages: string -> InfoResponse)
    requires Contains(row.rawName, "Supreme Court")
    ensures var info := InfoHost + row.nameHref;
      UpdateCourt(row, feeds, pages)
      == Loaded(CourtRecord(GetName(row.rawName), Supreme, InfoCheck(info, pages(info)), [],
                            Website(SupremeBase), false, []))
  {
  }

  /** A non-Supreme row's feed URL sits on its own ECF site, below the link with one slash added */
  lemma FeedOnOwnSite(row: CourtRow, feeds: string -> Option<FeedDoc>, pages: string -> InfoResponse)
    requires UpdateCourt(row, feeds, pages).Loaded?
    requires UpdateCourt(row, feeds, pages).record.kind != Supreme
    ensures StartsWith(UpdateCourt(row, feeds, pages).record.feedUrl, WithSlash(row.appHref))
  {
  }
}
