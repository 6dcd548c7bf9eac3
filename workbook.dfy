/**
  The body of `process_workbook_to_html` between loading the workbook and
  writing the page: every sheet with records is classified by its normalized
  title; list and text sections queue a patch, a header sheet rewrites the
  profile block at once; then the list patches and after them the text
  patches are applied in sheet order.
*/
module Workbook {
  import opened Wrappers
  import opened Strings
  import opened Records
  import opened RowExtractor
  import opened FieldResolver
  import opened HtmlPatcher
  import Publications
  import ListFormatters

  /** A worksheet: its title and its grid of cells. */
  datatype Sheet = Sheet(title: string, grid: seq<Row>)

  /** A queued patch: `(section_id, tag, new_inner)`. */
  datatype Patch = Patch(section: string, tag: string, content: string)

  /** The builder a list section uses. */
  datatype Builder =
    | NewsSheet | FeaturedSheet | ChapterSheet | JournalSheet | ConferenceSheet
    | PatentSheet | AwardSheet | ContactSheet

  /** What a normalized sheet title selects. */
  datatype Kind =
    | Biography
    | ListSection(section: string, tag: string, builder: Builder)
    | TextSection(section: string, tag: string)
    | HeaderSheet
    | Ignored

  // ---------------------------------------------------------------------------
  // Classification

  const BiographyNames: set<string> := {"biography", "bio", "传记", "简历"}
  const NewsNames: set<string> := {"news", "最新动态", "动态"}
  const FeaturedNames: set<string> := {"featured article", "featured", "精选文章"}
  const ChapterNames: set<string> := {"book chapter", "book chapters", "图书章节"}
  const JournalNames: set<string> := {"refereed journal papers", "journal", "journals", "期刊论文"}
  const ConferenceNames: set<string> :=
    {"refereed conference papers", "refereed conference paper", "conference", "conferences", "会议论文",
     "conf", "conference papers", "refereed conferences", "会议"}
  const PatentNames: set<string> := {"patent", "patents", "专利"}
  const AwardNames: set<string> := {"award", "awards", "award & honors", "honors", "荣誉", "奖项"}
  const ContactNames: set<string> := {"correspondence", "contact", "contacts", "联系方式", "联系", "通讯"}
  const InterestNames: set<string> := {"research interests", "interests", "研究兴趣"}
  const HeaderNames: set<string> := {"header", "profile", "顶部", "基本信息"}

  /** The chain of title tests, in the order the source makes them. */
  function Classify(norm: string): Kind {
    if norm in BiographyNames then Biography
    else if norm in NewsNames then ListSection("News", "ul", NewsSheet)
    else if norm in FeaturedNames then ListSection("Featured Article", "ol", FeaturedSheet)
    else if norm in ChapterNames then ListSection("Book Chapter", "ol", ChapterSheet)
    else if norm in JournalNames then ListSection("Refereed Journal Papers", "ol", JournalSheet)
    else if norm in ConferenceNames then ListSection("Refereed Conference Papers", "ol", ConferenceSheet)
    else if norm in PatentNames then ListSection("Patent", "ol", PatentSheet)
    else if norm in AwardNames then ListSection("Award", "ul", AwardSheet)
    else if norm in ContactNames then ListSection("Correspondence", "ul", ContactSheet)
    else if norm in InterestNames then TextSection("Research Interests", "h5")
    else if norm in HeaderNames then HeaderSheet
    else Ignored
  }

  /** The section body each list builder writes. */
  function Content(b: Builder, rows: seq<Record>): string {
    match b
    case NewsSheet => ListFormatters.NewsItems(rows)
    case FeaturedSheet => Publications.BuildFeaturedItems(rows)
    case ChapterSheet => Publications.BuildBookChapterItems(rows)
    // build_journal_items_with_trailing_br writes what build_featured_items writes
    case JournalSheet => Publications.BuildFeaturedItems(rows)
    case ConferenceSheet => Publications.BuildConferenceItemsWithTrailingBr(rows)
    case PatentSheet => ListFormatters.PatentItems(rows)
    case AwardSheet => ListFormatters.AwardItems(rows)
    case ContactSheet => ListFormatters.Correspondence(rows)
  }

  // ---------------------------------------------------------------------------
  // Header substitutions: `re.sub(r"(P)(.*?)(S)", rf"\1{v}\3", html, count=1)`

  /**
    Where the lazy `.*?` after position `k` stops: the first `post` at or
    after `k` before any line feed (`.` does not match a line feed).
  */
  function LazyEnd(s: string, post: string, k: nat): (o: Option<nat>)
    requires k <= |s|
    ensures o.Some? ==> k <= o.value <= |s| && OccursAt(s, post, o.value)
    ensures o.Some? ==> forall p :: k <= p < o.value ==> s[p] != '\n' && !OccursAt(s, post, p)
    decreases |s| - k
  {
    if OccursAt(s, post, k) then Some(k)
    else if k == |s| || s[k] == '\n' then None
    else LazyEnd(s, post, k + 1)
  }

  /** Where `post` starts when the pattern matches at `i`. */
  function BracketAt(s: string, pre: string, post: string, i: nat): (o: Option<nat>)
    requires i <= |s|
    ensures o.Some? ==> OccursAt(s, pre, i) && i + |pre| <= o.value <= |s|
  {
    if OccursAt(s, pre, i) then LazyEnd(s, post, i + |pre|) else None
  }

  /** The leftmost match at or after `k`: its start and where its `post` starts. */
  function FirstBracket(s: string, pre: string, post: string, k: nat): (o: Option<(nat, nat)>)
    requires k <= |s|
    ensures o.Some? ==> k <= o.value.0 <= |s| && BracketAt(s, pre, post, o.value.0) == Some(o.value.1)
    ensures o.Some? ==> forall i :: k <= i < o.value.0 ==> BracketAt(s, pre, post, i).None?
    ensures o.None? ==> forall i :: k <= i <= |s| ==> BracketAt(s, pre, post, i).None?
    decreases |s| - k
  {
    match BracketAt(s, pre, post, k)
    case Some(j) => Some((k, j))
    case None => if k == |s| then None else FirstBracket(s, pre, post, k + 1)
  }

  /** The first match keeps `pre` and `post` and has its middle replaced by `v`. */
  function SubFirst(s: string, pre: string, post: string, v: string): string {
    match FirstBracket(s, pre, post, 0)
    case Some((i, j)) => s[..i + |pre|] + v + s[j..]
    case None => s
  }

  /** Without a match the page is unchanged; with one, only the middle of the leftmost match changes. */
  lemma SubFirstSpec(s: string, pre: string, post: string, v: string)
    ensures FirstBracket(s, pre, post, 0).None? ==> SubFirst(s, pre, post, v) == s
    ensures FirstBracket(s, pre, post, 0).Some? ==>
      var (i, j) := FirstBracket(s, pre, post, 0).value;
      var r := SubFirst(s, pre, post, v);
      && r[..i + |pre|] == s[..i + |pre|] && r[i..i + |pre|] == pre
      && r[i + |pre|..i + |pre| + |v|] == v
      && r[i + |pre| + |v|..] == s[j..] && OccursAt(s, post, j)
      && forall p :: i + |pre| <= p < j ==> s[p] != '\n'
  {
    match FirstBracket(s, pre, post, 0)
    case Some((i, j)) =>
      var r := s[..i + |pre|] + v + s[j..];
      assert r[..i + |pre|] == s[..i + |pre|];
      assert r[i..i + |pre|] == s[i..i + |pre|];
    case None =>
  }

  const NameCnPre := "<h2 class=\"white\">"
  const NameCnPost := "</h2>"
  const NameEnPre := "<h3 class=\"white\">"
  const NameEnPost := "</h3>"
  const EmailPre := "<h5 class=\"white\">E-mail:"
  const EmailPost := "</h5>"
  const IeeePre := "<a href=\""
  const IeeePost := "\" class=\"blue\">IEEE author homepage</a>"

  /** `row.get(find_col(row, cands) or "", "")`, not stripped. */
  function RawField(row: Record, cands: seq<string>): string {
    Get(row, FindCol(row, cands).GetOr(""))
  }

  /** The profile values of the header sheet's first row. */
  datatype Profile = Profile(nameCn: string, nameEn: string, email: string, ieee: string)

  function ProfileOf(row: Record): Profile {
    Profile(RawField(row, ["name_cn", "姓名"]), RawField(row, ["name_en", "英文名"]),
      RawField(row, ["email"]), RawField(row, ["ieee", "ieee link"]))
  }

  /** The four substitutions, each made only for a non-empty value. */
  function ApplyProfile(html: string, p: Profile): string {
    var h1 := if p.nameCn != "" then SubFirst(html, NameCnPre, NameCnPost, p.nameCn) else html;
    var h2 := if p.nameEn != "" then SubFirst(h1, NameEnPre, NameEnPost, p.nameEn) else h1;
    var h3 := if p.email != "" then SubFirst(h2, EmailPre, EmailPost, " " + p.email) else h2;
    if p.ieee != "" then SubFirst(h3, IeeePre, IeeePost, p.ieee) else h3
  }

  /** An empty profile changes nothing. */
  lemma ApplyProfileEmpty(html: string)
    ensures ApplyProfile(html, Profile("", "", "", "")) == html
  {
  }

  /** The header substitutions for a header sheet's first row. */
  method ApplyHeaderRow(row: Record, html: string) returns (out: string)
    ensures out == ApplyProfile(html, ProfileOf(row))
  {
    var nameCn := RawField(row, ["name_cn", "姓名"]);
    var nameEn := RawField(row, ["name_en", "英文名"]);
    var email := RawField(row, ["email"]);
    var ieee := RawField(row, ["ieee", "ieee link"]);
    out := html;
    if nameCn != "" {
      out := SubFirst(out, NameCnPre, NameCnPost, nameCn);
    }
    if nameEn != "" {
      out := SubFirst(out, NameEnPre, NameEnPost, nameEn);
    }
    if email != "" {
      out := SubFirst(out, EmailPre, EmailPost, " " + email);
    }
    if ieee != "" {
      out := SubFirst(out, IeeePre, IeeePost, ieee);
    }
  }

  // ---------------------------------------------------------------------------
  // Reading the sheets

  /** The page so far and the two queues of patches. */
  datatype Plan = Plan(html: string, updates: seq<Patch>, textUpdates: seq<Patch>)

  /** What one sheet does to the plan. */
  function Step(plan: Plan, sheet: Sheet): Plan {
    var rows := Extract(sheet.grid);
    if |rows| == 0 then plan
    else
      match Classify(NormalizeName(sheet.title))
      case Biography => plan
      case ListSection(section, tag, b) => plan.(updates := plan.updates + [Patch(section, tag, Content(b, rows))])
      case TextSection(section, tag) =>
        plan.(textUpdates := plan.textUpdates + [Patch(section, tag, ListFormatters.TextBlock(rows))])
      case HeaderSheet => plan.(html := ApplyProfile(plan.html, ProfileOf(rows[0])))
      case Ignored => plan
  }

  /** The plan after the loop over the sheets. */
  function Collect(html: string, sheets: seq<Sheet>): Plan {
    if |sheets| == 0 then Plan(html, [], [])
    else Step(Collect(html, sheets[..|sheets| - 1]), sheets[|sheets| - 1])
  }

  /** The page after each queued list patch has replaced its section's list, in queue order. */
  function ApplyLists(html: string, ps: seq<Patch>): string {
    if |ps| == 0 then html
    else
      var p := ps[|ps| - 1];
      ReplaceSectionList(ApplyLists(html, ps[..|ps| - 1]), p.section, p.tag, p.content)
  }

  /** The page after each queued text patch has replaced its section's text, in queue order. */
  function ApplyTexts(html: string, ps: seq<Patch>): string {
    if |ps| == 0 then html
    else
      var p := ps[|ps| - 1];
      ReplaceTextAfterSection(ApplyTexts(html, ps[..|ps| - 1]), p.section, p.tag, p.content)
  }

  /** The page `process_workbook_to_html` writes. */
  function ProcessWorkbook(html: string, sheets: seq<Sheet>): string {
    var plan := Collect(html, sheets);
    ApplyTexts(ApplyLists(plan.html, plan.updates), plan.textUpdates)
  }

  // ---------------------------------------------------------------------------
  // The loops

  /** `process_workbook_to_html` without the load and the write. */
  method ProcessWorkbookToHtml(sheets: seq<Sheet>, html0: string) returns (html: string)
    ensures html == ProcessWorkbook(html0, sheets)
  {
    html := html0;
    var updates: seq<Patch> := [];
    var textUpdates: seq<Patch> := [];
    for k := 0 to |sheets|
      invariant Plan(html, updates, textUpdates) == Collect(html0, sheets[..k])
    {
      CollectPrefix(html0, sheets, k);
      html, updates, textUpdates := ReadSheet(sheets[k], html, updates, textUpdates);
    }
    assert sheets[..|sheets|] == sheets;
    html := ApplyListPatches(html, updates);
    html := ApplyTextPatches(html, textUpdates);
  }

  /** The loop body over one sheet. */
  method ReadSheet(sheet: Sheet, html: string, updates: seq<Patch>, textUpdates: seq<Patch>)
    returns (html': string, updates': seq<Patch>, textUpdates': seq<Patch>)
    ensures Plan(html', updates', textUpdates') == Step(Plan(html, updates, textUpdates), sheet)
  {
    html', updates', textUpdates' := html, updates, textUpdates;
    var rows := ReadRowsAsDicts(sheet.grid);
    if |rows| == 0 {
      return;
    }
    var kind := Classify(NormalizeName(sheet.title));
    match kind
    case Biography =>
    case ListSection(section, tag, b) =>
      var content := BuildContent(b, rows);
      updates' := updates + [Patch(section, tag, content)];
    case TextSection(section, tag) =>
      textUpdates' := textUpdates + [Patch(section, tag, ListFormatters.TextBlock(rows))];
    case HeaderSheet =>
      html' := ApplyHeaderRow(rows[0], html);
    case Ignored =>
  }

  /** The builder call of a list section. */
  method BuildContent(b: Builder, rows: seq<Record>) returns (content: string)
    ensures content == Content(b, rows)
  {
    match b
    case NewsSheet => content := ListFormatters.BuildNewsItems(rows);
    case FeaturedSheet => content := Publications.BuildFeaturedItems(rows);
    case ChapterSheet => content := Publications.BuildBookChapterItems(rows);
    case JournalSheet => content := Publications.BuildJournalItemsWithTrailingBr(rows);
    case ConferenceSheet => content := Publications.BuildConferenceItemsWithTrailingBr(rows);
    case PatentSheet => content := ListFormatters.BuildPatentItems(rows);
    case AwardSheet => content := ListFormatters.BuildAwardItems(rows);
    case ContactSheet => content := ListFormatters.BuildCorrespondence(rows);
  }

  /** The loop applying the list patches. */
  method ApplyListPatches(html0: string, ps: seq<Patch>) returns (html: string)
    ensures html == ApplyLists(html0, ps)
  {
    html := html0;
    for j := 0 to |ps|
      invariant html == ApplyLists(html0, ps[..j])
    {
      ApplyListsPrefix(html0, ps, j);
      html := ReplaceSectionList(html, ps[j].section, ps[j].tag, ps[j].content);
    }
    assert ps[..|ps|] == ps;
  }

  /** The loop applying the text patches. */
  method ApplyTextPatches(html0: string, ps: seq<Patch>) returns (html: string)
    ensures html == ApplyTexts(html0, ps)
  {
    html := html0;
    for j := 0 to |ps|
      invariant html == ApplyTexts(html0, ps[..j])
    {
      ApplyTextsPrefix(html0, ps, j);
      html := ReplaceTextAfterSection(html, ps[j].section, ps[j].tag, ps[j].content);
    }
    assert ps[..|ps|] == ps;
  }

  lemma CollectPrefix(html: string, sheets: seq<Sheet>, k: nat)
    requires k < |sheets|
    ensures Collect(html, sheets[..k + 1]) == Step(Collect(html, sheets[..k]), sheets[k])
  {
    assert sheets[..k + 1][..k] == sheets[..k];
  }

  lemma ApplyListsPrefix(html: string, ps: seq<Patch>, j: nat)
    requires j < |ps|
    ensures ApplyLists(html, ps[..j + 1]) ==
      ReplaceSectionList(ApplyLists(html, ps[..j]), ps[j].section, ps[j].tag, ps[j].content)
  {
    assert ps[..j + 1][..j] == ps[..j];
  }

  lemma ApplyTextsPrefix(html: string, ps: seq<Patch>, j: nat)
    requires j < |ps|
    ensures ApplyTexts(html, ps[..j + 1]) ==
      ReplaceTextAfterSection(ApplyTexts(html, ps[..j]), ps[j].section, ps[j].tag, ps[j].content)
  {
    assert ps[..j + 1][..j] == ps[..j];
  }

  // ---------------------------------------------------------------------------
  // Properties

  /** The list patch a sheet queues, if any. */
  function ListPatchOf(sheet: Sheet): seq<Patch> {
    var rows := Extract(sheet.grid);
    if |rows| == 0 then []
    else
      match Classify(NormalizeName(sheet.title))
      case ListSection(section, tag, b) => [Patch(section, tag, Content(b, rows))]
      case _ => []
  }

  /** The text patch a sheet queues, if any. */
  function TextPatchOf(sheet: Sheet): seq<Patch> {
    var rows := Extract(sheet.grid);
    if |rows| == 0 then []
    else
      match Classify(NormalizeName(sheet.title))
      case TextSection(section, tag) => [Patch(section, tag, ListFormatters.TextBlock(rows))]
      case _ => []
  }

  /** The header substitutions of the sheets, in order, and nothing else. */
  function HeaderPass(html: string, sheets: seq<Sheet>): string {
    if |sheets| == 0 then html
    else
      var h := HeaderPass(html, sheets[..|sheets| - 1]);
      var sheet := sheets[|sheets| - 1];
      var rows := Extract(sheet.grid);
      if |rows| > 0 && Classify(NormalizeName(sheet.title)) == HeaderSheet then ApplyProfile(h, ProfileOf(rows[0]))
      else h
  }

  function ListPatches(sheets: seq<Sheet>): seq<Patch> {
    if |sheets| == 0 then [] else ListPatches(sheets[..|sheets| - 1]) + ListPatchOf(sheets[|sheets| - 1])
  }

  function TextPatches(sheets: seq<Sheet>): seq<Patch> {
    if |sheets| == 0 then [] else TextPatches(sheets[..|sheets| - 1]) + TextPatchOf(sheets[|sheets| - 1])
  }

  /**
    The loop over the sheets makes every header substitution (in sheet order)
    and queues every list patch and every text patch, each queue in sheet
    order; so all header substitutions come before any patch, and all list
    patches before any text patch.
  */
  lemma {:induction false} CollectSplits(html: string, sheets: seq<Sheet>)
    ensures Collect(html, sheets) == Plan(HeaderPass(html, sheets), ListPatches(sheets), TextPatches(sheets))
  {
    if |sheets| > 0 {
      CollectSplits(html, sheets[..|sheets| - 1]);
    }
  }

  lemma ProcessWorkbookOrder(html: string, sheets: seq<Sheet>)
    ensures ProcessWorkbook(html, sheets) ==
      ApplyTexts(ApplyLists(HeaderPass(html, sheets), ListPatches(sheets)), TextPatches(sheets))
  {
    CollectSplits(html, sheets);
  }

  /** A sheet without records, a biography sheet and a sheet with an unknown title change nothing. */
  lemma SilentSheet(html: string, sheets: seq<Sheet>, sheet: Sheet)
    requires |Extract(sheet.grid)| == 0 || Classify(NormalizeName(sheet.title)) in {Biography, Ignored}
    ensures ProcessWorkbook(html, sheets + [sheet]) == ProcessWorkbook(html, sheets)
  {
    assert (sheets + [sheet])[..|sheets|] == sheets;
  }

  /** Without sheets the page is written back as it was read. */
  lemma NoSheets(html: string)
    ensures ProcessWorkbook(html, []) == html
  {
  }

  /** Each list sheet queues exactly its own patch, in sheet order. */
  lemma ListPatchesAt(sheets: seq<Sheet>, sheet: Sheet)
    requires |Extract(sheet.grid)| > 0 && Classify(NormalizeName(sheet.title)).ListSection?
    ensures var kind, rows := Classify(NormalizeName(sheet.title)), Extract(sheet.grid);
      ListPatches(sheets + [sheet]) == ListPatches(sheets) + [Patch(kind.section, kind.tag, Content(kind.builder, rows))]
      && TextPatches(sheets + [sheet]) == TextPatches(sheets)
  {
    assert (sheets + [sheet])[..|sheets|] == sheets;
  }

  /**
    Each title set selects its own section and only that one: the sets are
    pairwise disjoint, so the order of the tests decides nothing.
  */
  lemma ClassifyBiography(norm: string)
    ensures norm in BiographyNames <==> Classify(norm) == Biography
  {
  }

  lemma ClassifyNews(norm: string)
    ensures norm in NewsNames <==> Classify(norm) == ListSection("News", "ul", NewsSheet)
  {
    if norm in NewsNames {
      ClassifyApartNews(norm);
    }
  }

  lemma ClassifyFeatured(norm: string)
    ensures norm in FeaturedNames <==> Classify(norm) == ListSection("Featured Article", "ol", FeaturedSheet)
  {
    if norm in FeaturedNames {
      ClassifyApartFeatured(norm);
    }
  }

  lemma ClassifyChapter(norm: string)
    ensures norm in ChapterNames <==> Classify(norm) == ListSection("Book Chapter", "ol", ChapterSheet)
  {
    if norm in ChapterNames {
      ClassifyApartChapter(norm);
    }
  }

  lemma ClassifyJournal(norm: string)
    ensures norm in JournalNames <==> Classify(norm) == ListSection("Refereed Journal Papers", "ol", JournalSheet)
  {
    if norm in JournalNames {
      ClassifyApartJournal(norm);
    }
  }

  lemma ClassifyConference(norm: string)
    ensures norm in ConferenceNames <==> Classify(norm) == ListSection("Refereed Conference Papers", "ol", ConferenceSheet)
  {
    if norm in ConferenceNames {
      ClassifyApartConference(norm);
    }
  }

  lemma ClassifyPatent(norm: string)
    ensures norm in PatentNames <==> Classify(norm) == ListSection("Patent", "ol", PatentSheet)
  {
    if norm in PatentNames {
      ClassifyApartPatent(norm);
    }
  }

  lemma ClassifyAward(norm: string)
    ensures norm in AwardNames <==> Classify(norm) == ListSection("Award", "ul", AwardSheet)
  {
    if norm in AwardNames {
      ClassifyApartAward(norm);
    }
  }

  lemma ClassifyContact(norm: string)
    ensures norm in ContactNames <==> Classify(norm) == ListSection("Correspondence", "ul", ContactSheet)
  {
    if norm in ContactNames {
      ClassifyApartContact(norm);
    }
  }

  lemma ClassifyInterest(norm: string)
    ensures norm in InterestNames <==> Classify(norm) == TextSection("Research Interests", "h5")
  {
    if norm in InterestNames {
      ClassifyApartInterest(norm);
    }
  }

  lemma ClassifyHeader(norm: string)
    ensures norm in HeaderNames <==> Classify(norm) == HeaderSheet
  {
    if norm in HeaderNames {
      ClassifyApartHeader(norm);
    }
  }

  /** No news title is a title of an earlier test. */
  lemma ClassifyApartNews(norm: string)
    requires norm in NewsNames
    ensures norm !in BiographyNames
  {
  }

  /** No featured title is a title of an earlier test. */
  lemma ClassifyApartFeatured(norm: string)
    requires norm in FeaturedNames
    ensures norm !in BiographyNames && norm !in NewsNames
  {
  }

  /** No chapter title is a title of an earlier test. */
  lemma ClassifyApartChapter(norm: string)
    requires norm in ChapterNames
    ensures norm !in BiographyNames && norm !in NewsNames && norm !in FeaturedNames
  {
  }

  /** No journal title is a title of an earlier test. */
  lemma ClassifyApartJournal(norm: string)
    requires norm in JournalNames
    ensures norm !in BiographyNames && norm !in NewsNames && norm !in FeaturedNames &&
      norm !in ChapterNames
  {
  }

  /** No conference title is a title of an earlier test. */
  lemma ClassifyApartConference(norm: string)
    requires norm in ConferenceNames
    ensures norm !in BiographyNames && norm !in NewsNames && norm !in FeaturedNames &&
      norm !in ChapterNames && norm !in JournalNames
  {
  }

  /** No patent title is a title of an earlier test. */
  lemma ClassifyApartPatent(norm: string)
    requires norm in PatentNames
    ensures norm !in BiographyNames && norm !in NewsNames && norm !in FeaturedNames &&
      norm !in ChapterNames && norm !in JournalNames && norm !in ConferenceNames
  {
  }

  /** No award title is a title of an earlier test. */
  lemma ClassifyApartAward(norm: string)
    requires norm in AwardNames
    ensures norm !in BiographyNames && norm !in NewsNames && norm !in FeaturedNames &&
      norm !in ChapterNames && norm !in JournalNames && norm !in ConferenceNames &&
      norm !in PatentNames
  {
  }

  /** No contact title is a title of an earlier test. */
  lemma ClassifyApartContact(norm: string)
    requires norm in ContactNames
    ensures norm !in BiographyNames && norm !in NewsNames && norm !in FeaturedNames &&
      norm !in ChapterNames && norm !in JournalNames && norm !in ConferenceNames &&
      norm !in PatentNames && norm !in AwardNames
  {
  }

  /** No interest title is a title of an earlier test. */
  lemma ClassifyApartInterest(norm: string)
    requires norm in InterestNames
    ensures norm !in BiographyNames && norm !in NewsNames && norm !in FeaturedNames &&
      norm !in ChapterNames && norm !in JournalNames && norm !in ConferenceNames &&
      norm !in PatentNames && norm !in AwardNames && norm !in ContactNames
  {
  }

  /** No header title is a title of an earlier test. */
  lemma ClassifyApartHeader(norm: string)
    requires norm in HeaderNames
    ensures norm !in BiographyNames && norm !in NewsNames && norm !in FeaturedNames &&
      norm !in ChapterNames && norm !in JournalNames && norm !in ConferenceNames &&
      norm !in PatentNames && norm !in AwardNames && norm !in ContactNames && norm !in InterestNames
  {
  }

  /** A title in none of the sets is ignored, and only such a title. */
  lemma ClassifyIgnored(norm: string)
    ensures Classify(norm) == Ignored <==>
      norm !in BiographyNames + NewsNames + FeaturedNames + ChapterNames + JournalNames + ConferenceNames
        + PatentNames + AwardNames + ContactNames + InterestNames + HeaderNames
  {
    if Classify(norm) == Ignored {
      assert norm !in BiographyNames && norm !in NewsNames && norm !in FeaturedNames;
      assert norm !in ChapterNames && norm !in JournalNames && norm !in ConferenceNames;
      assert norm !in PatentNames && norm !in AwardNames && norm !in ContactNames;
      assert norm !in InterestNames && norm !in HeaderNames;
    }
  }
}
