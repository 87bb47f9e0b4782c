/**
 * The per-item extraction rules of `trackcases`: case-type classification
 * (`get_case_type`), the case id and title split, `get_entry_info`, `is_date_filed`
 * and the entry id, and the whole per-item decision of the ingestion loop.
 */
module Track {
  import opened Wrappers
  import opened Text
  import opened Decimal
  import opened Patterns
  import opened Courts

  // ---------------------------------------------------------------------------
  // get_case_type
  // ---------------------------------------------------------------------------

  const CivilCodes: set<string> := {
    "cv", "mc", "ct", "dp", "md", "cm", "fp", "gd", "ml", "pf", "sw", "xc", "af", "de", "dj",
    "gp", "oe", "aa", "at", "adr", "s1", "av", "wp", "2255", "wf", "s", "dcn", "ad", "w",
    "ds", "sp", "rd", "rj", "bk", "ma", "ra", "hcd", "DX", "BZ", "AM", "AL", "DG", "GL", "PV",
    "PP", "LV", "CB", "CM", "DS", "UR", "LD", "FL", "EC", "DV", "op", "ph", "BC", "sb", "rf"
  }

  const CriminalCodes: set<string> := {
    "cr", "mj", "po", "gj", "cb", "tp", "pt", "fj", "tk", "hc", "cn", "xr", "pr", "mw", "r",
    "sm", "m", "te", "mr", "mb", "mm", "~gr", "y", "wt"
  }

  const VaccineCodes: set<string> := {"vc", "vv"}

  const CongressionalCodes: set<string> := {"cg"}

  /** The code table of a district-style court; `None` is the `AttributeError` of an unlisted code */
  function ClassifyCode(code: string): (r: Option<CaseType>)
    ensures r.Some? ==> r.value in {Civil, Criminal, Vaccine, CongressionalRecord}
    ensures r.None? <==> code !in CivilCodes + CriminalCodes + VaccineCodes + CongressionalCodes
    ensures code in CivilCodes ==> r == Some(Civil)
    ensures code !in CivilCodes && code in CriminalCodes ==> r == Some(Criminal)
    ensures code !in CivilCodes + CriminalCodes && code in VaccineCodes ==> r == Some(Vaccine)
    ensures code !in CivilCodes + CriminalCodes + VaccineCodes && code in CongressionalCodes ==> r == Some(CongressionalRecord)
  {
    if code in CivilCodes then Some(Civil)
    else if code in CriminalCodes then Some(Criminal)
    else if code in VaccineCodes then Some(Vaccine)
    else if code in CongressionalCodes then Some(CongressionalRecord)
    else None
  }

  /** The court types whose cases all get one fixed case type */
  predicate IsPinned(court: CourtType) {
    court == Bankruptcy || court == Appeals || court == Supreme || court == Multidistrict
  }

  /**
   * `re.search('(?<=-)\w{1,4}(?=-)', case_number)`: the first run of one to four word
   * characters that sits directly between two hyphens.
   */
  function DistrictCodeSpan(caseNumber: string): (r: Option<Span>)
    ensures r.Some? ==> InString(caseNumber, r.value)
    ensures r.Some? ==> RunMatch(caseNumber, "-", Word, 1, 4, "-", r.value.start, r.value.end - r.value.start)
    ensures r.Some? ==> forall p: nat, k: nat :: p < r.value.start ==> !RunMatch(caseNumber, "-", Word, 1, 4, "-", p, k)
    ensures r.None? ==> forall p: nat, k: nat :: !RunMatch(caseNumber, "-", Word, 1, 4, "-", p, k)
  {
    SearchRunFinds(caseNumber, "-", Word, 1, 4, "-", 0);
    SearchRun(caseNumber, "-", Word, 1, 4, "-", 0)
  }

  /** The text of that run, `.group()` of the search */
  function DistrictCode(caseNumber: string): (r: Option<string>)
    ensures r.None? <==> DistrictCodeSpan(caseNumber).None?
    ensures r.Some? ==> r.value == Slice(caseNumber, DistrictCodeSpan(caseNumber).value)
    ensures r.Some? ==> 1 <= |r.value| <= 4 && forall j :: 0 <= j < |r.value| ==> IsWordChar(r.value[j])
  {
    match DistrictCodeSpan(caseNumber)
    case None => None
    case Some(sp) => Some(Slice(caseNumber, sp))
  }

  /** `get_case_type(case_number, court)`; `None` is the `AttributeError` the caller counts as broken */
  function GetCaseType(caseNumber: string, court: CourtType): (r: Option<CaseType>)
    ensures court == Bankruptcy ==> r == Some(BankruptcyCase)
    ensures court == Appeals || court == Supreme ==> r == Some(AppealCase)
    ensures court == Multidistrict ==> r == Some(MultidistrictCase)
    ensures !IsPinned(court) && r.Some? ==> r.value in {Civil, Criminal, Vaccine, CongressionalRecord}
    ensures !IsPinned(court) ==> (r.None? <==> DistrictCode(caseNumber).None? || ClassifyCode(DistrictCode(caseNumber).value).None?)
    ensures !IsPinned(court) && DistrictCode(caseNumber).Some? ==> r == ClassifyCode(DistrictCode(caseNumber).value)
  {
    if court == Bankruptcy then Some(BankruptcyCase)
    else if court == Appeals || court == Supreme then Some(AppealCase)
    else if court == Multidistrict then Some(MultidistrictCase)
    else
      match DistrictCode(caseNumber)
      case None => None
      case Some(code) => ClassifyCode(code)
  }

  /** A match with no hyphen before it is the leftmost one, so the search returns its text */
  lemma DistrictCodeOfFirstMatch(s: string, p: nat, k: nat)
    requires RunMatch(s, "-", Word, 1, 4, "-", p, k)
    requires forall q :: 0 <= q < p - 1 ==> s[q] != '-'
    ensures DistrictCode(s) == Some(s[p..p + k])
  {
    var sp := DistrictCodeSpan(s).value;
    assert s[sp.start - 1..sp.start] == "-";
    assert s[sp.start - 1] == '-';
    RunMatchIsRun(s, "-", Word, 1, 4, "-", p, k);
    RunMatchIsRun(s, "-", Word, 1, 4, "-", p, sp.end - sp.start);
  }

  /**
   * On a docket number of the form `office:yy-code-nnnnn` (no hyphen before the code) the
   * search finds exactly the code.
   */
  lemma DistrictCodeOfDocketNumber(office: string, code: string, serial: string)
    requires '-' !in office && 1 <= |code| <= 4 && forall j :: 0 <= j < |code| ==> IsWordChar(code[j])
    ensures DistrictCode(office + "-" + code + "-" + serial) == Some(code)
  {
    var s := office + "-" + code + "-" + serial;
    var p, k := |office| + 1, |code|;
    assert s[p - 1..p] == "-" && s[p..p + k] == code && s[p + k..p + k + 1] == "-";
    assert forall q :: 0 <= q < p - 1 ==> s[q] == office[q];
    DistrictCodeOfFirstMatch(s, p, k);
  }

  /** A district-style court classifies such a docket number by its code */
  lemma CaseTypeOfDocketNumber(office: string, code: string, serial: string, court: CourtType)
    requires '-' !in office && 1 <= |code| <= 4 && forall j :: 0 <= j < |code| ==> IsWordChar(code[j])
    requires !IsPinned(court)
    ensures GetCaseType(office + "-" + code + "-" + serial, court) == ClassifyCode(code)
  {
    DistrictCodeOfDocketNumber(office, code, serial);
  }

  /** The table entry '~gr' can never be produced: `\w` does not match '~' */
  lemma TildeCodeUnreachable(caseNumber: string)
    ensures DistrictCode(caseNumber) != Some("~gr")
  {
    var code := DistrictCode(caseNumber);
    if code.Some? {
      assert IsWordChar(code.value[0]) && !IsWordChar('~');
    }
  }

  // ---------------------------------------------------------------------------
  // case id and title split
  // ---------------------------------------------------------------------------

  /** The digits of a case website that make up the case id: the hyphens are deleted first */
  function CaseDigits(website: string): (r: Option<string>)
    ensures r.None? <==> LinkDigits(Replace(website, "-", "")).None?
    ensures r.Some? ==> r.value == Slice(Replace(website, "-", ""), LinkDigits(Replace(website, "-", "")).value)
    ensures r.Some? ==> |r.value| >= 1 && AllDigits(r.value)
  {
    var s := Replace(website, "-", "");
    match LinkDigits(s)
    case None => None
    case Some(sp) => Some(Slice(s, sp))
  }

  /** `int(str(court.id) + '0' + digits)` */
  function CaseIdOf(courtId: nat, digits: string): nat
    requires AllDigits(digits)
  {
    var s := Show(courtId) + "0" + digits;
    Parse(s)
  }

  lemma CaseIdDigitsAreDigits(courtId: nat, digits: string)
    requires AllDigits(digits)
    ensures AllDigits(Show(courtId) + "0" + digits)
  {
  }

  /** For a real court (id > 0) the decimal form of the case id is `str(court.id) + '0' + digits` */
  lemma CaseIdDecimalForm(courtId: nat, digits: string)
    requires courtId > 0 && AllDigits(digits)
    ensures Show(CaseIdOf(courtId, digits)) == Show(courtId) + "0" + digits
  {
    var s := Show(courtId) + "0" + digits;
    CaseIdDigitsAreDigits(courtId, digits);
    ShowParse(s);
  }

  /** Within one court, different digit strings give different case ids */
  lemma CaseIdInjectiveWithinCourt(courtId: nat, d1: string, d2: string)
    requires courtId > 0 && AllDigits(d1) && AllDigits(d2)
    requires CaseIdOf(courtId, d1) == CaseIdOf(courtId, d2)
    ensures d1 == d2
  {
    CaseIdDecimalForm(courtId, d1);
    CaseIdDecimalForm(courtId, d2);
    var p := Show(courtId) + "0";
    assert p + d1 == p + d2;
    assert d1 == (p + d1)[|p|..];
    assert d2 == (p + d2)[|p|..];
  }

  /** Across courts the case id is not unique: court 1 with digits "05" and court 10 with "5" both give 1005 */
  lemma CaseIdCollidesAcrossCourts()
    ensures CaseIdOf(1, "05") == CaseIdOf(10, "5") == 1005
  {
    assert Show(1) == "1";
    assert Show(10) == Show(1) + "0";
    assert Show(1) + "0" + "05" == "1005";
    assert Show(10) + "0" + "5" == "1005";
    assert "1005"[..3] == "100" && "100"[..2] == "10" && "10"[..1] == "1" && "1"[..0] == "";
  }

  /** What the loop body derives from an item's title and link (lines 393-397) */
  datatype CaseIdentity = CaseIdentity(title: string, website: string, caseId: nat, caseNumber: string, name: string)

  /**
   * `title, case_website = entry.title.text.strip(), entry.link.text.strip()`, the case id,
   * and `title.partition(' ')`; `None` is the `AttributeError` of a missing title or link
   * or of a link without a usable digit run.
   */
  function GetCaseIdentity(courtId: nat, title: Option<string>, link: Option<string>): (r: Option<CaseIdentity>)
    ensures r.None? <==> title.None? || link.None? || CaseDigits(Strip(link.value)).None?
    ensures r.Some? ==> r.value.title == Strip(title.value) && r.value.website == Strip(link.value)
    ensures r.Some? ==> r.value.caseId == CaseIdOf(courtId, CaseDigits(r.value.website).value)
    ensures r.Some? ==> ' ' !in r.value.caseNumber && IsTrimmed(r.value.name)
    ensures r.Some? && ' ' !in r.value.title ==> r.value.caseNumber == r.value.title && r.value.name == ""
    ensures r.Some? && ' ' in r.value.title ==>
      exists rest :: r.value.title == r.value.caseNumber + " " + rest && r.value.name == Strip(rest)
  {
    if title.None? || link.None? then None
    else
      var t := Strip(title.value);
      var w := Strip(link.value);
      match CaseDigits(w)
      case None => None
      case Some(digits) =>
        var parts := Partition(t, ' ');
        Some(CaseIdentity(t, w, CaseIdOf(courtId, digits), parts.0, Strip(parts.2)))
  }

  // ---------------------------------------------------------------------------
  // get_entry_info
  // ---------------------------------------------------------------------------

  /** `entry_summary` after unescaping: single quotes become double quotes */
  function SummaryText(unescaped: string): string {
    Replace(unescaped, "'", "\"")
  }

  /** What stands before the description: "Trustee: " when the summary names one, else "[" */
  function DescriptionOpener(s: string): string {
    if Contains(s, "Trustee: ") then "Trustee: " else "["
  }

  /**
   * The stretch the description search covers after its opener: the leftmost position
   * just after the opener from which `.+` reaches a ']' on the same line, and there the
   * longest such stretch (`.+` is greedy).
   */
  function DescriptionSpan(s: string): (r: Option<Span>)
    ensures r.Some? ==> InString(s, r.value) && DotMatch(s, DescriptionOpener(s), "]", r.value.start, r.value.end)
    ensures r.Some? ==> forall p: nat, e: nat :: p < r.value.start ==> !DotMatch(s, DescriptionOpener(s), "]", p, e)
    ensures r.Some? ==> forall e: nat :: r.value.end < e ==> !DotMatch(s, DescriptionOpener(s), "]", r.value.start, e)
    ensures r.None? ==> forall p: nat, e: nat :: !DotMatch(s, DescriptionOpener(s), "]", p, e)
  {
    SearchDot(s, DescriptionOpener(s), "]", 0)
  }

  /**
   * `re.search('Trustee: .+(?=\])', ...).group() + ']'` when the summary names a trustee,
   * else `re.search('(?<=\[).+(?=\])', ...).group()`
   */
  function Description(s: string): (r: Option<string>)
    ensures r.None? <==> DescriptionSpan(s).None?
    ensures r.Some? && Contains(s, "Trustee: ") ==> r.value == "Trustee: " + Slice(s, DescriptionSpan(s).value) + "]"
    ensures r.Some? && !Contains(s, "Trustee: ") ==> r.value == Slice(s, DescriptionSpan(s).value)
    ensures r.Some? ==> |r.value| >= 1
    ensures r.Some? ==> Contains(s, "]")
  {
    match DescriptionSpan(s)
    case None => None
    case Some(sp) =>
      ContainsAt(s, "]", sp.end);
      if Contains(s, "Trustee: ") then Some("Trustee: " + Slice(s, sp) + "]") else Some(Slice(s, sp))
  }

  datatype EntryInfo = EntryInfo(description: string, docNumber: Option<nat>, docWebsite: Option<string>)

  /** `re.search('(?<=">)\d+(?=</a>)', ...)` */
  function DocNumberSpan(s: string): (r: Option<Span>)
    ensures r.Some? ==> InString(s, r.value)
    ensures r.Some? ==> RunMatch(s, "\">", Digit, 1, |s|, "</a>", r.value.start, r.value.end - r.value.start)
    ensures r.Some? ==> forall p: nat, k: nat :: p < r.value.start ==> !RunMatch(s, "\">", Digit, 1, |s|, "</a>", p, k)
    ensures r.None? ==> forall p: nat, k: nat :: !RunMatch(s, "\">", Digit, 1, |s|, "</a>", p, k)
  {
    SearchRunFinds(s, "\">", Digit, 1, |s|, "</a>", 0);
    SearchRun(s, "\">", Digit, 1, |s|, "</a>", 0)
  }

  /** `int(number.group())` */
  function DocNumber(s: string): (r: Option<nat>)
    ensures r.None? <==> DocNumberSpan(s).None?
    ensures r.Some? ==> r.value == Parse(Slice(s, DocNumberSpan(s).value))
  {
    match DocNumberSpan(s)
    case None => None
    case Some(sp) => Some(Parse(Slice(s, sp)))
  }

  /** `re.search('(?<=a href=").+(?=">)', ...)` */
  function DocWebsiteSpan(s: string): (r: Option<Span>)
    ensures r.Some? ==> InString(s, r.value) && DotMatch(s, "a href=\"", "\">", r.value.start, r.value.end)
    ensures r.Some? ==> forall p: nat, e: nat :: p < r.value.start ==> !DotMatch(s, "a href=\"", "\">", p, e)
    ensures r.Some? ==> forall e: nat :: r.value.end < e ==> !DotMatch(s, "a href=\"", "\">", r.value.start, e)
    ensures r.None? ==> forall p: nat, e: nat :: !DotMatch(s, "a href=\"", "\">", p, e)
  {
    SearchDot(s, "a href=\"", "\">", 0)
  }

  /**
   * `get_entry_info(entry)` on the item's unescaped summary; `None` is the
   * `AttributeError` of a missing summary or of a summary without a bracketed description.
   */
  function GetEntryInfo(summary: Option<string>): (r: Option<EntryInfo>)
    ensures summary.None? ==> r.None?
    ensures summary.Some? ==> (r.None? <==> Description(SummaryText(summary.value)).None?)
    ensures summary.Some? && !Contains(SummaryText(summary.value), "]") ==> r.None?
    ensures r.Some? ==> r.value.description == Description(SummaryText(summary.value)).value
    ensures r.Some? && r.value.docNumber.Some? ==> r.value.docWebsite.Some?
    ensures r.Some? ==> (r.value.docWebsite.Some? <==> DocWebsiteSpan(SummaryText(summary.value)).Some?)
    ensures r.Some? ==> (r.value.docNumber.Some? <==>
      DocWebsiteSpan(SummaryText(summary.value)).Some? && DocNumberSpan(SummaryText(summary.value)).Some?)
    ensures r.Some? && r.value.docNumber.Some? ==> r.value.docNumber == DocNumber(SummaryText(summary.value))
    ensures r.Some? ==> var s := SummaryText(summary.value);
      DocWebsiteSpan(s).Some? ==> r.value.docWebsite == Some(Slice(s, DocWebsiteSpan(s).value))
  {
    if summary.None? then None
    else
      var s := SummaryText(summary.value);
      match Description(s)
      case None => None
      case Some(description) =>
        var website := DocWebsiteSpan(s);
        var docNumber := if website.Some? then DocNumber(s) else None;
        var docWebsite := if website.Some? then Some(Slice(s, website.value)) else None;
        Some(EntryInfo(description, docNumber, docWebsite))
  }

  // ---------------------------------------------------------------------------
  // is_date_filed and the entry id
  // ---------------------------------------------------------------------------

  /** An entry whose document number is 1 is the one that opened the case */
  predicate IsDateFiled(docNumber: Option<nat>) {
    docNumber == Some(1)
  }

  /** Python's `str` of an optional number: `'None'` or its decimal form */
  function OptionalNumberText(n: Option<nat>): (r: string)
    ensures n.None? ==> r == "None"
    ensures n.Some? ==> AllDigits(r) && Parse(r) == n.value
  {
    match n
    case None => "None"
    case Some(v) => ParseShow(v); Show(v)
  }

  /** Python's `str` of an optional string */
  function OptionalText(t: Option<string>): (r: string)
    ensures t.None? ==> r == "None"
    ensures t.Some? ==> r == t.value
  {
    match t
    case None => "None"
    case Some(v) => v
  }

  /** The string whose hash is the entry id: five fields run together with no separator */
  function EntryKey(caseWebsite: string, description: string, docNumber: Option<nat>, docWebsite: Option<string>,
                    timeFiled: int): (r: string)
    ensures r == caseWebsite + description + OptionalNumberText(docNumber) + OptionalText(docWebsite) + ShowInt(timeFiled)
    ensures StartsWith(r, caseWebsite + description)
    ensures EndsWith(r, ShowInt(timeFiled))
  {
    var head := caseWebsite + description;
    var tail := OptionalNumberText(docNumber) + OptionalText(docWebsite) + ShowInt(timeFiled);
    assert head + tail == head + (OptionalNumberText(docNumber) + OptionalText(docWebsite)) + ShowInt(timeFiled);
    head + tail
  }

  /**
   * The key does not determine the entry: with no separator between the fields, a
   * description ending in "None" and a missing link collide with a link "NoneNone".
   */
  lemma EntryKeyCollides(hash: string -> nat)
    ensures EntryKey("w", "dNone", None, None, 0) == EntryKey("w", "d", None, Some("NoneNone"), 0)
    ensures hash(EntryKey("w", "dNone", None, None, 0)) == hash(EntryKey("w", "d", None, Some("NoneNone"), 0))
  {
    assert EntryKey("w", "dNone", None, None, 0) == "w" + "dNone" + ("None" + "None" + ShowInt(0));
    assert EntryKey("w", "d", None, Some("NoneNone"), 0) == "w" + "d" + ("None" + "NoneNone" + ShowInt(0));
    assert "w" + "dNone" + ("None" + "None" + ShowInt(0)) == "w" + "d" + ("None" + "NoneNone" + ShowInt(0));
  }

  // ---------------------------------------------------------------------------
  // the per-item decision of the ingestion loop
  // ---------------------------------------------------------------------------

  /** A feed date as the parser sees it: absent, present but unparseable, or a time */
  datatype DateField = Missing | Unparseable | At(time: int)

  /** A parsed `<item>`: each child element may be absent */
  datatype RawItem = RawItem(pubDate: DateField, title: Option<string>, link: Option<string>, summary: Option<string>)

  /**
   * The tuple the loop appends to `entries_to_save`; `court` is the court's id.
   * Fields in the source's order: court, title, case_number, name, type,
   * is_date_filed, case_website, description, doc_number, doc_website,
   * time_filed, entry_id, case_id.
   */
  datatype Candidate = Candidate(
    court: nat, title: string, caseNumber: string, name: string, caseType: CaseType,
    isDateFiled: bool, caseWebsite: string, description: string, docNumber: Option<nat>,
    docWebsite: Option<string>, timeFiled: int, entryId: nat, caseId: nat)

  datatype BrokenReason = BadPubDate | BadCase | BadCaseType | BadEntryInfo

  /**
   * What the loop does with one item: counts it old, counts it broken, appends a
   * candidate, or stops the whole run (`Fatal`: the date parser's error is not among
   * the caught exceptions).
   */
  datatype ItemOutcome = Accepted(candidate: Candidate) | Old | Broken(reason: BrokenReason) | Fatal

  /** The per-item body of the loop for a court whose watermark is `lastUpdated` */
  function ExtractItem(courtId: nat, kind: CourtType, lastUpdated: int, item: RawItem, hash: string -> nat): (r: ItemOutcome)
    ensures r == Fatal <==> item.pubDate == Unparseable
    ensures r == Broken(BadPubDate) <==> item.pubDate == Missing
    ensures r == Old <==> item.pubDate.At? && item.pubDate.time <= lastUpdated
    ensures r.Broken? && r.reason == BadCase <==>
      item.pubDate.At? && item.pubDate.time > lastUpdated && GetCaseIdentity(courtId, item.title, item.link).None?
    ensures r == Broken(BadCaseType) <==>
      item.pubDate.At? && item.pubDate.time > lastUpdated && GetCaseIdentity(courtId, item.title, item.link).Some?
      && GetCaseType(GetCaseIdentity(courtId, item.title, item.link).value.caseNumber, kind).None?
    ensures r == Broken(BadEntryInfo) <==>
      item.pubDate.At? && item.pubDate.time > lastUpdated && GetCaseIdentity(courtId, item.title, item.link).Some?
      && GetCaseType(GetCaseIdentity(courtId, item.title, item.link).value.caseNumber, kind).Some?
      && GetEntryInfo(item.summary).None?
    ensures r.Accepted? <==>
      item.pubDate.At? && item.pubDate.time > lastUpdated && GetCaseIdentity(courtId, item.title, item.link).Some?
      && GetCaseType(GetCaseIdentity(courtId, item.title, item.link).value.caseNumber, kind).Some?
      && GetEntryInfo(item.summary).Some?
    ensures r.Accepted? ==> item.pubDate.At? && r.candidate.timeFiled == item.pubDate.time > lastUpdated
    ensures r.Accepted? ==> r.candidate.court == courtId && Some(r.candidate.caseType) == GetCaseType(r.candidate.caseNumber, kind)
    ensures r.Accepted? ==> (r.candidate.isDateFiled <==> r.candidate.docNumber == Some(1))
    ensures r.Accepted? ==> (r.candidate.docNumber.Some? ==> r.candidate.docWebsite.Some?)
    ensures r.Accepted? ==>
      GetCaseIdentity(courtId, item.title, item.link) ==
      Some(CaseIdentity(r.candidate.title, r.candidate.caseWebsite, r.candidate.caseId, r.candidate.caseNumber, r.candidate.name))
    ensures r.Accepted? ==>
      GetEntryInfo(item.summary) == Some(EntryInfo(r.candidate.description, r.candidate.docNumber, r.candidate.docWebsite))
    ensures r.Accepted? ==>
      r.candidate.entryId ==
      hash(EntryKey(r.candidate.caseWebsite, r.candidate.description, r.candidate.docNumber, r.candidate.docWebsite, r.candidate.timeFiled))
  {
    match item.pubDate
    case Missing => Broken(BadPubDate)
    case Unparseable => Fatal
    case At(timeFiled) =>
      if timeFiled <= lastUpdated then Old
      else
        match GetCaseIdentity(courtId, item.title, item.link)
        case None => Broken(BadCase)
        case Some(id) =>
          match GetCaseType(id.caseNumber, kind)
          case None => Broken(BadCaseType)
          case Some(caseType) =>
            match GetEntryInfo(item.summary)
            case None => Broken(BadEntryInfo)
            case Some(info) =>
              var key := EntryKey(id.website, info.description, info.docNumber, info.docWebsite, timeFiled);
              Accepted(Candidate(courtId, id.title, id.caseNumber, id.name, caseType, IsDateFiled(info.docNumber),
                                 id.website, info.description, info.docNumber, info.docWebsite, timeFiled,
                                 hash(key), id.caseId))
  }

  /** Two items of one court with the same fields are accepted with the same entry id */
  lemma SameItemSameEntry(courtId: nat, kind: CourtType, lastUpdated: int, a: RawItem, b: RawItem, hash: string -> nat)
    requires ExtractItem(courtId, kind, lastUpdated, a, hash).Accepted?
    requires ExtractItem(courtId, kind, lastUpdated, b, hash).Accepted?
    requires a.pubDate == b.pubDate && Strip(a.link.value) == Strip(b.link.value) && a.summary == b.summary
    ensures ExtractItem(courtId, kind, lastUpdated, a, hash).candidate.entryId ==
            ExtractItem(courtId, kind, lastUpdated, b, hash).candidate.entryId
    ensures ExtractItem(courtId, kind, lastUpdated, a, hash).candidate.caseId ==
            ExtractItem(courtId, kind, lastUpdated, b, hash).candidate.caseId
  {
  }
}
