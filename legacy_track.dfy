/**
 * The per-item extraction rules of the legacy `trackcases_old` command: its
 * `get_case_type` (two-character codes only), its `get_entry_info` (no unescaping, an
 * empty link instead of None), the `case_key`, and its per-item decision.
 */
module LegacyTrack {
  import opened Wrappers
  import opened Text
  import opened Decimal
  import opened Patterns
  import opened Courts
  import Track

  // ---------------------------------------------------------------------------
  // get_case_type
  // ---------------------------------------------------------------------------

  const LegacyCivilCodes: set<string> := {
    "cv", "mc", "ct", "dp", "md", "cm", "fp", "gd", "ml", "pf", "sw", "xc", "af", "de", "dj",
    "gp", "oe", "aa", "at", "adr", "s1", "av", "wp", "2255", "wf", "s", "dcn", "ad", "w",
    "ds", "sp", "rd", "rj", "bk"
  }

  const LegacyCriminalCodes: set<string> := {
    "cr", "mj", "po", "gj", "cb", "tp", "pt", "fj", "tk", "hc", "cn", "xr", "pr", "mw", "r",
    "sm", "m", "te", "mr", "mb"
  }

  /** The legacy code table; `None` is the `AttributeError` of an unlisted code */
  function LegacyClassifyCode(code: string): (r: Option<CaseType>)
    ensures r.Some? ==> r.value in {Civil, Criminal, Vaccine, CongressionalRecord}
    ensures r.None? <==> code !in LegacyCivilCodes + LegacyCriminalCodes + Track.VaccineCodes + Track.CongressionalCodes
    ensures code in LegacyCivilCodes ==> r == Some(Civil)
    ensures code !in LegacyCivilCodes && code in LegacyCriminalCodes ==> r == Some(Criminal)
    ensures code !in LegacyCivilCodes + LegacyCriminalCodes && code in Track.VaccineCodes ==> r == Some(Vaccine)
    ensures code !in LegacyCivilCodes + LegacyCriminalCodes + Track.VaccineCodes && code in Track.CongressionalCodes ==>
      r == Some(CongressionalRecord)
  {
    if code in LegacyCivilCodes then Some(Civil)
    else if code in LegacyCriminalCodes then Some(Criminal)
    else if code in Track.VaccineCodes then Some(Vaccine)
    else if code in Track.CongressionalCodes then Some(CongressionalRecord)
    else None
  }

  /** The current table keeps every legacy civil code, and tests the civil codes first */
  lemma CivilCodesAgree(code: string)
    requires LegacyClassifyCode(code) == Some(Civil)
    ensures Track.ClassifyCode(code) == Some(Civil)
  {
    assert LegacyCivilCodes <= Track.CivilCodes;
  }

  /** `re.search('(?<=-)\w{2}(?=-)', case_number)`: two word characters between two hyphens */
  function LegacyCodeSpan(caseNumber: string): (r: Option<Span>)
    ensures r.Some? ==> InString(caseNumber, r.value)
    ensures r.Some? ==> RunMatch(caseNumber, "-", Word, 2, 2, "-", r.value.start, r.value.end - r.value.start)
    ensures r.Some? ==> forall p: nat, k: nat :: p < r.value.start ==> !RunMatch(caseNumber, "-", Word, 2, 2, "-", p, k)
    ensures r.None? ==> forall p: nat, k: nat :: !RunMatch(caseNumber, "-", Word, 2, 2, "-", p, k)
  {
    SearchRunFinds(caseNumber, "-", Word, 2, 2, "-", 0);
    SearchRun(caseNumber, "-", Word, 2, 2, "-", 0)
  }

  /** The text of that pair, `.group()` of the search */
  function LegacyCode(caseNumber: string): (r: Option<string>)
    ensures r.None? <==> LegacyCodeSpan(caseNumber).None?
    ensures r.Some? ==> r.value == Slice(caseNumber, LegacyCodeSpan(caseNumber).value)
    ensures r.Some? ==> |r.value| == 2 && IsWordChar(r.value[0]) && IsWordChar(r.value[1])
  {
    match LegacyCodeSpan(caseNumber)
    case None => None
    case Some(sp) => Some(Slice(caseNumber, sp))
  }

  /** A match with no hyphen before it is the leftmost one, so the search returns its text */
  lemma LegacyCodeOfFirstMatch(s: string, p: nat, k: nat)
    requires RunMatch(s, "-", Word, 2, 2, "-", p, k)
    requires forall q :: 0 <= q < p - 1 ==> s[q] != '-'
    ensures LegacyCode(s) == Some(s[p..p + k])
  {
    var sp := LegacyCodeSpan(s).value;
    assert s[sp.start - 1..sp.start] == "-";
    assert s[sp.start - 1] == '-';
    RunMatchIsRun(s, "-", Word, 2, 2, "-", p, k);
    RunMatchIsRun(s, "-", Word, 2, 2, "-", p, sp.end - sp.start);
  }

  /**
   * On a docket number `office:yy-code-nnnnn` with a two-character code and no hyphen
   * before it, a district-style court classifies the case by that code.
   */
  lemma LegacyCaseTypeOfDocketNumber(office: string, code: string, serial: string, court: CourtType)
    requires '-' !in office && |code| == 2 && IsWordChar(code[0]) && IsWordChar(code[1])
    requires !Track.IsPinned(court)
    ensures LegacyGetCaseType(office + "-" + code + "-" + serial, court) == LegacyClassifyCode(code)
  {
    var s := office + "-" + code + "-" + serial;
    var p := |office| + 1;
    assert s[p - 1..p] == "-" && s[p..p + 2] == code && s[p + 2..p + 3] == "-";
    assert forall q :: 0 <= q < p - 1 ==> s[q] == office[q];
    LegacyCodeOfFirstMatch(s, p, 2);
  }

  /** The table entries that are not two characters long can never be looked up */
  lemma UnreachableLegacyCodes(caseNumber: string)
    ensures forall c :: c in {"adr", "2255", "dcn", "s", "w", "r", "m"} ==> LegacyCode(caseNumber) != Some(c)
  {
  }

  /**
   * Where the current pattern finds a code of exactly two characters, the legacy pattern
   * finds the same one: the two searches agree on every two-character hit.
   */
  lemma LegacyCodeAgrees(caseNumber: string)
    requires Track.DistrictCode(caseNumber).Some? && |Track.DistrictCode(caseNumber).value| == 2
    ensures LegacyCode(caseNumber) == Track.DistrictCode(caseNumber)
  {
    var sp := Track.DistrictCodeSpan(caseNumber).value;
    assert RunMatch(caseNumber, "-", Word, 2, 2, "-", sp.start, sp.end - sp.start);
    var lp := LegacyCodeSpan(caseNumber);
    assert lp.Some? && lp.value.start <= sp.start;
    assert RunMatch(caseNumber, "-", Word, 1, 4, "-", lp.value.start, lp.value.end - lp.value.start);
    assert lp.value.start == sp.start;
  }

  /** The legacy `get_case_type`: the pinned court types, then the two-character code */
  function LegacyGetCaseType(caseNumber: string, court: CourtType): (r: Option<CaseType>)
    ensures court == Bankruptcy ==> r == Some(BankruptcyCase)
    ensures court == Appeals || court == Supreme ==> r == Some(AppealCase)
    ensures court == Multidistrict ==> r == Some(MultidistrictCase)
    ensures !Track.IsPinned(court) && r.Some? ==> r.value in {Civil, Criminal, Vaccine, CongressionalRecord}
    ensures !Track.IsPinned(court) ==>
      (r.None? <==> LegacyCode(caseNumber).None? || LegacyClassifyCode(LegacyCode(caseNumber).value).None?)
    ensures !Track.IsPinned(court) && LegacyCode(caseNumber).Some? ==> r == LegacyClassifyCode(LegacyCode(caseNumber).value)
  {
    if court == Bankruptcy then Some(BankruptcyCase)
    else if court == Appeals || court == Supreme then Some(AppealCase)
    else if court == Multidistrict then Some(MultidistrictCase)
    else
      match LegacyCode(caseNumber)
      case None => None
      case Some(code) => LegacyClassifyCode(code)
  }

  /** A case the legacy rule pins or calls civil, whose current code has two characters, gets the same type from both rules */
  lemma CaseTypesAgree(caseNumber: string, court: CourtType)
    requires Track.IsPinned(court) || LegacyGetCaseType(caseNumber, court) == Some(Civil)
    requires !Track.IsPinned(court) ==> Track.DistrictCode(caseNumber).Some? && |Track.DistrictCode(caseNumber).value| == 2
    ensures Track.GetCaseType(caseNumber, court) == LegacyGetCaseType(caseNumber, court)
  {
    if !Track.IsPinned(court) {
      LegacyCodeAgrees(caseNumber);
      CivilCodesAgree(LegacyCode(caseNumber).value);
    }
  }

  // ---------------------------------------------------------------------------
  // case_key
  // ---------------------------------------------------------------------------

  /** `int(str(court.id) + digits)`: no separator between the court id and the digits */
  function CaseKeyOf(courtId: nat, digits: string): nat
    requires AllDigits(digits)
  {
    Parse(Show(courtId) + digits)
  }

  /** The current case id is the legacy key of the digits with a '0' put in front */
  lemma CaseIdIsKeyOfPadded(courtId: nat, digits: string)
    requires AllDigits(digits)
    ensures Track.CaseIdOf(courtId, digits) == CaseKeyOf(courtId, "0" + digits)
  {
    assert Show(courtId) + "0" + digits == Show(courtId) + ("0" + digits);
  }

  /** Without a separator the key is ambiguous: court 1 with digits "23" and court 12 with "3" collide */
  lemma CaseKeyCollides()
    ensures CaseKeyOf(1, "23") == CaseKeyOf(12, "3") == 123
  {
    assert Show(1) == "1";
    assert Show(12) == Show(1) + "2";
    assert Show(1) + "23" == "123";
    assert Show(12) + "3" == "123";
    assert "123"[..2] == "12" && "12"[..1] == "1" && "1"[..0] == "";
  }

  /** Within one court the key still tells its digit strings apart */
  lemma CaseKeyInjectiveWithinCourt(courtId: nat, d1: string, d2: string)
    requires courtId > 0 && AllDigits(d1) && AllDigits(d2)
    requires CaseKeyOf(courtId, d1) == CaseKeyOf(courtId, d2)
    ensures d1 == d2
  {
    var p := Show(courtId);
    assert AllDigits(p + d1) && AllDigits(p + d2);
    assert (p + d1)[0] == p[0] == (p + d2)[0];
    ParseInjective(p + d1, p + d2);
    assert d1 == (p + d1)[|p|..];
    assert d2 == (p + d2)[|p|..];
  }

  // ---------------------------------------------------------------------------
  // get_entry_info
  // ---------------------------------------------------------------------------

  /** The legacy entry fields: the document link is `''` when none is found */
  datatype LegacyEntryInfo = LegacyEntryInfo(description: string, docNumber: Option<nat>, docWebsite: string)

  /**
   * The legacy `get_entry_info(entry)` on the summary as the feed parser gives it (no
   * unescaping, no quote replacement); `None` is the `KeyError` of a missing summary or
   * the `AttributeError` of a summary without a bracketed description.
   */
  function LegacyGetEntryInfo(summary: Option<string>): (r: Option<LegacyEntryInfo>)
    ensures summary.None? ==> r.None?
    ensures summary.Some? ==> (r.None? <==> Track.Description(summary.value).None?)
    ensures r.Some? ==> r.value.description == Track.Description(summary.value).value
    ensures r.Some? ==> (r.value.docNumber.Some? <==>
      Track.DocWebsiteSpan(summary.value).Some? && Track.DocNumberSpan(summary.value).Some?)
    ensures r.Some? && r.value.docNumber.Some? ==> r.value.docNumber == Track.DocNumber(summary.value)
    ensures r.Some? && Track.DocWebsiteSpan(summary.value).None? ==> r.value.docWebsite == ""
    ensures r.Some? && Track.DocWebsiteSpan(summary.value).Some? ==>
      r.value.docWebsite == Slice(summary.value, Track.DocWebsiteSpan(summary.value).value)
  {
    if summary.None? then None
    else
      var s := summary.value;
      match Track.Description(s)
      case None => None
      case Some(description) =>
        var website := Track.DocWebsiteSpan(s);
        if website.Some? then
          Some(LegacyEntryInfo(description, Track.DocNumber(s), Slice(s, website.value)))
        else
          Some(LegacyEntryInfo(description, None, ""))
  }

  /**
   * On a summary without quotes to replace, the two versions find the same fields; only
   * the missing link is written differently (`''` against None).
   */
  lemma EntryInfoAgrees(s: string)
    requires !Contains(s, "'")
    ensures var old_ := LegacyGetEntryInfo(Some(s)); var cur := Track.GetEntryInfo(Some(s));
      && (old_.Some? <==> cur.Some?)
      && (old_.Some? ==> old_.value.description == cur.value.description && old_.value.docNumber == cur.value.docNumber)
      && (old_.Some? ==> old_.value.docWebsite == (if cur.value.docWebsite.Some? then cur.value.docWebsite.value else ""))
  {
    ReplaceAbsent(s, "'", "\"");
  }

  // ---------------------------------------------------------------------------
  // the per-item decision of the legacy loop
  // ---------------------------------------------------------------------------

  /**
   * The legacy tuple: court, title, case_number, name, type, is_date_filed,
   * case_website, description, doc_number, doc_website, time_filed, case_key.
   */
  datatype LegacyCandidate = LegacyCandidate(
    court: nat, title: string, caseNumber: string, name: string, caseType: CaseType,
    isDateFiled: bool, caseWebsite: string, description: string, docNumber: Option<nat>,
    docWebsite: string, timeFiled: int, caseKey: nat)

  /**
   * What the legacy loop does with one item. `Fatal`: a link without a usable digit run
   * makes `re.search(...).group()` raise an `AttributeError` the loop does not catch.
   */
  datatype LegacyOutcome = Taken(candidate: LegacyCandidate) | Stale | Dropped | Fatal

  /** The per-item body of the legacy loop (lines 322-391) */
  function LegacyExtractItem(courtId: nat, kind: CourtType, lastUpdated: int, item: Track.RawItem): (r: LegacyOutcome)
    ensures r == Dropped <==>
      !item.pubDate.At?
      || (item.pubDate.time > lastUpdated && item.title.Some? && item.link.Some?
          && Track.CaseDigits(item.link.value).Some?
          && (LegacyGetCaseType(Partition(item.title.value, ' ').0, kind).None? || LegacyGetEntryInfo(item.summary).None?))
      || (item.pubDate.time > lastUpdated && (item.title.None? || item.link.None?))
    ensures r == Stale <==> item.pubDate.At? && item.pubDate.time <= lastUpdated
    ensures r == Fatal <==>
      item.pubDate.At? && item.pubDate.time > lastUpdated && item.title.Some? && item.link.Some?
      && Track.CaseDigits(item.link.value).None?
    ensures r.Taken? ==> item.pubDate.At? && r.candidate.timeFiled == item.pubDate.time > lastUpdated
    ensures r.Taken? ==>
      && r.candidate.court == courtId && r.candidate.title == item.title.value
      && r.candidate.caseWebsite == item.link.value
      && r.candidate.caseKey == CaseKeyOf(courtId, Track.CaseDigits(item.link.value).value)
    ensures r.Taken? ==>
      && r.candidate.title == r.candidate.caseNumber + (if ' ' in r.candidate.title then " " else "") + r.candidate.name
      && ' ' !in r.candidate.caseNumber
    ensures r.Taken? ==> Some(r.candidate.caseType) == LegacyGetCaseType(r.candidate.caseNumber, kind)
    ensures r.Taken? ==> (r.candidate.isDateFiled <==> r.candidate.docNumber == Some(1))
    ensures r.Taken? ==>
      LegacyGetEntryInfo(item.summary) == Some(LegacyEntryInfo(r.candidate.description, r.candidate.docNumber, r.candidate.docWebsite))
  {
    match item.pubDate
    case Missing => Dropped
    case Unparseable => Dropped
    case At(timeFiled) =>
      if timeFiled <= lastUpdated then Stale
      else if item.title.None? || item.link.None? then Dropped
      else
        var title, website := item.title.value, item.link.value;
        match Track.CaseDigits(website)
        case None => Fatal
        case Some(digits) =>
          var parts := Partition(title, ' ');
          match LegacyGetCaseType(parts.0, kind)
          case None => Dropped
          case Some(caseType) =>
            match LegacyGetEntryInfo(item.summary)
            case None => Dropped
            case Some(info) =>
              Taken(LegacyCandidate(courtId, title, parts.0, parts.2, caseType, info.docNumber == Some(1),
                                    website, info.description, info.docNumber, info.docWebsite, timeFiled,
                                    CaseKeyOf(courtId, digits)))
  }
}
