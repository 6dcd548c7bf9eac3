/**
  Publication formatters: the bibliographic line (`compose_pub_main_text`),
  one list item per publication (`build_pub_item`, `build_book_chapter_item`)
  and the section bodies built from them (`build_*_items`).
*/
module Publications {
  import opened Wrappers
  import opened Strings
  import opened Records
  import opened FieldResolver
  import opened Authors

  // ---------------------------------------------------------------------------
  // Column names

  const AuthorCols: seq<string> := ["authors", "author", "作者"]
  const AuthorOrderCols: seq<string> := ["author_order", "作者序", "作者次序", "次序"]
  const TitleCols: seq<string> := ["title", "题目"]
  const ContainerCols: seq<string> := ["journal", "conference", "book", "venue", "容器", "刊物", "期刊", "会议"]
  const PagesCols: seq<string> := ["pages", "pp", "页"]
  const TimeCols: seq<string> := ["time", "日期", "时间"]
  const MonthCols: seq<string> := ["month"]
  const YearCols: seq<string> := ["year", "年份"]
  const DoiCols: seq<string> := ["doi", "doa"]
  const NoteCols: seq<string> := ["note", "备注"]
  const NoteLinkCols: seq<string> := ["note_link", "备注链接", "note_url"]
  const LinkCols: seq<string> := ["url", "link", "链接", "地址"]
  const ChapterCols: seq<string> := ["chapter_title", "chapter", "章节题目"]
  const BookCols: seq<string> := ["book_title", "book", "书名"]
  const IsbnCols: seq<string> := ["isbn"]
  const PublisherCols: seq<string> := ["publisher", "出版社"]
  const ImageCols: seq<string> := ["pics", "image", "图片", "picture"]

  // ---------------------------------------------------------------------------
  // Shared pieces

  /** `s` with one `.` added when it is non-empty and does not end in one. */
  function EnsurePeriod(s: string): (t: string)
    ensures t == s || t == s + "."
    ensures t == "" <==> s == ""
    ensures t != "" ==> t[|t| - 1] == '.'
  {
    if s != "" && s[|s| - 1] != '.' then s + "." else s
  }

  /** Adding the period twice adds it once. */
  lemma EnsurePeriodIdempotent(s: string)
    ensures EnsurePeriod(EnsurePeriod(s)) == EnsurePeriod(s)
  {
  }

  /** A line ends in two periods only if it already did. */
  lemma EnsurePeriodNoDouble(s: string)
    ensures var t := EnsurePeriod(s); |t| >= 2 && t[|t| - 2..] == ".." ==> |s| >= 2 && s[|s| - 2..] == ".."
  {
    var t := EnsurePeriod(s);
    if t != s && |t| >= 2 {
      assert t[|t| - 2] == s[|s| - 1];
    }
  }

  /** `if v: parts.append(rendered)` */
  function AppendIf(parts: seq<string>, v: string, rendered: string): seq<string> {
    if v != "" then parts + [rendered] else parts
  }

  /** No part of the list is blank. */
  predicate NoBlankPart(ps: seq<string>) {
    forall i :: 0 <= i < |ps| ==> !AllSpace(ps[i])
  }

  /** A field that is empty or starts with a non-space character. */
  predicate EmptyOrSolid(s: string) {
    s == "" || !AllSpace(s)
  }

  /** Months and years: `", ".join([v for v in [month, year] if v])`. */
  function MonthYear(m: string, y: string): string {
    Join(NonEmpty([m, y]), ", ")
  }

  /** Month and year are joined by ", ", either left out when empty. */
  lemma MonthYearCases(m: string, y: string)
    ensures MonthYear(m, y) == if m != "" && y != "" then m + ", " + y else if m != "" then m else y
  {
    var xs := [m, y];
    assert xs[..1] == [m];
    assert xs[..1][..0] == [];
    if m != "" && y != "" {
      assert NonEmpty(xs) == [m, y];
      assert Join([m, y], ", ") == m + ", " + Join([m, y][1..], ", ");
    } else if m != "" {
      assert NonEmpty(xs) == [m];
    } else if y != "" {
      assert NonEmpty(xs) == [y];
    } else {
      assert NonEmpty(xs) == [];
    }
  }

  /** Joining stripped month and year gives a stripped time. */
  lemma MonthYearStripped(m: string, y: string)
    requires IsStripped(m) && IsStripped(y)
    ensures IsStripped(MonthYear(m, y))
  {
    MonthYearCases(m, y);
  }

  /**
    The time of a publication: the time column, else the non-empty ones of
    month and year joined by ", ".
  */
  function TimeText(r: Record): (t: string)
    ensures IsStripped(t)
  {
    var t := ResolvedIfKey(r, TimeCols);
    if t != "" then t
    else
      var m, y := Resolved(r, MonthCols), Resolved(r, YearCols);
      MonthYearStripped(m, y);
      MonthYear(m, y)
  }

  /** The time is empty exactly when the time, month and year columns all are. */
  lemma TimeTextEmpty(r: Record)
    ensures TimeText(r) == "" <==>
      ResolvedIfKey(r, TimeCols) == "" && Resolved(r, MonthCols) == "" && Resolved(r, YearCols) == ""
  {
    MonthYearCases(Resolved(r, MonthCols), Resolved(r, YearCols));
  }

  /** An explicit time column wins over month and year. */
  lemma TimeTextPrefersTime(r: Record)
    ensures ResolvedIfKey(r, TimeCols) != "" ==> TimeText(r) == ResolvedIfKey(r, TimeCols)
    ensures ResolvedIfKey(r, TimeCols) == "" ==>
      TimeText(r) == MonthYear(Resolved(r, MonthCols), Resolved(r, YearCols))
  {
  }

  /** The red parenthetical note, a link when there is a note link. */
  function NoteHtml(note: string, noteLink: string): string {
    if note == "" then ""
    else if noteLink != "" then
      " <font class=\"red\">(<a href='" + noteLink + "' class=\"red\">" + note + "</a>)</font>"
    else " <font class=\"red\">(" + note + ")</font>"
  }

  /** An explicit link line, or one to the DOI resolver when only a DOI is known. */
  function LinkHtml(link: string, doi: string): string {
    if link != "" then "<br><a href='" + link + "' class=\"deepgrey\">" + link + "</a>"
    else if doi != "" then
      var url := "https://doi.org/" + doi;
      "<br><a href='" + url + "' class=\"deepgrey\">" + url + "</a>"
    else ""
  }

  /** The note is left out exactly when there is none; its link is used only with a note. */
  lemma NoteHtmlCases(note: string, noteLink: string)
    ensures NoteHtml(note, noteLink) == "" <==> note == ""
    ensures note != "" && noteLink == "" ==> NoteHtml(note, noteLink) == " <font class=\"red\">(" + note + ")</font>"
    ensures note == "" ==> NoteHtml(note, noteLink) == NoteHtml(note, "")
  {
  }

  /** The explicit link wins over the DOI; the DOI resolver is used only without one. */
  lemma LinkHtmlCases(link: string, doi: string)
    ensures LinkHtml(link, doi) == "" <==> link == "" && doi == ""
    ensures link != "" ==> LinkHtml(link, doi) == LinkHtml(link, "")
    ensures link == "" && doi != "" ==> LinkHtml(link, doi) == LinkHtml("https://doi.org/" + doi, "")
  {
  }

  // ---------------------------------------------------------------------------
  // compose_pub_main_text

  /** The resolved fields of a publication line, authors already highlighted. */
  datatype PubFields = PubFields(
    authors: string, title: string, container: string, pages: string, time: string, doi: string)

  /**
    The highlighted authors of a row. This uses `Authors.HighlightAuthorsIntended`,
    the corrected markup of the README's Findings row: where the row has no
    usable author position, the name pattern's match gets `<font class="deepblue">`
    rather than the backslashed tag the code writes.
  */
  function HighlightedAuthors(r: Record): string {
    HighlightAuthorsIntended(Resolved(r, AuthorCols), ResolvedIfKey(r, AuthorOrderCols))
  }

  function PubFieldsOf(r: Record): PubFields {
    PubFields(HighlightedAuthors(r), Resolved(r, TitleCols), Resolved(r, ContainerCols),
      Resolved(r, PagesCols), TimeText(r), ResolvedIfKey(r, DoiCols))
  }

  /** The parts of the line in their fixed order, empty fields left out. */
  function PubParts(f: PubFields): seq<string> {
    var p := AppendIf([], f.authors, f.authors);
    var p := AppendIf(p, f.title, "\"" + f.title + "\"");
    var p := AppendIf(p, f.container, "<i>" + f.container + "</i>");
    var p := AppendIf(p, f.pages, f.pages);
    var p := AppendIf(p, f.time, f.time);
    AppendIf(p, f.doi, "doi: " + f.doi)
  }

  /** The line for resolved fields: parts joined by ", ", stripped, ended by a period. */
  function PubLine(f: PubFields): string {
    EnsurePeriod(Strip(Join(PubParts(f), ", ")))
  }

  /** What `compose_pub_main_text(r)` returns. */
  function PubMainText(r: Record): string {
    PubLine(PubFieldsOf(r))
  }

  /** `compose_pub_main_text`: resolve the fields, collect the parts, finish the line. */
  method ComposePubMainText(r: Record) returns (main: string)
    ensures main == PubMainText(r)
  {
    var f := ResolvePubFields(r);
    main := FinishPubLine(f);
  }

  /** The line from the resolved fields. */
  method FinishPubLine(f: PubFields) returns (main: string)
    ensures main == PubLine(f)
  {
    var parts := CollectPubParts(f);
    main := AddPeriod(Strip(Join(parts, ", ")));
  }

  /** `if main and not main.endswith("."): main += "."` */
  method AddPeriod(line: string) returns (main: string)
    ensures main == EnsurePeriod(line)
  {
    main := line;
    if main != "" && main[|main| - 1] != '.' {
      main := main + ".";
    }
  }

  /** The column lookups at the top of `compose_pub_main_text`. */
  method ResolvePubFields(r: Record) returns (f: PubFields)
    ensures f == PubFieldsOf(r)
  {
    var authors := HighlightAuthorsIntended(Resolved(r, AuthorCols), ResolvedIfKey(r, AuthorOrderCols));
    var title := Resolved(r, TitleCols);
    var container := Resolved(r, ContainerCols);
    var pages := Resolved(r, PagesCols);
    var time := ResolvedIfKey(r, TimeCols);
    if time == "" {
      var month := Resolved(r, MonthCols);
      var year := Resolved(r, YearCols);
      time := Join(NonEmpty([month, year]), ", ");
    }
    var doi := ResolvedIfKey(r, DoiCols);
    f := PubFields(authors, title, container, pages, time, doi);
  }

  /** The appends of `compose_pub_main_text`, one per present field. */
  method CollectPubParts(f: PubFields) returns (parts: seq<string>)
    ensures parts == PubParts(f)
  {
    parts := [];
    if f.authors != "" {
      parts := parts + [f.authors];
    }
    if f.title != "" {
      parts := parts + ["\"" + f.title + "\""];
    }
    if f.container != "" {
      parts := parts + ["<i>" + f.container + "</i>"];
    }
    if f.pages != "" {
      parts := parts + [f.pages];
    }
    if f.time != "" {
      parts := parts + [f.time];
    }
    if f.doi != "" {
      parts := parts + ["doi: " + f.doi];
    }
  }

  /** A list joined by ", " is blank only when it is empty, if no piece is blank. */
  lemma JoinCommaBlank(xs: seq<string>)
    requires NoBlankPart(xs)
    ensures AllSpace(Join(xs, ", ")) <==> |xs| == 0
  {
    if |xs| >= 2 {
      var j := Join(xs, ", ");
      assert j == xs[0] + ", " + Join(xs[1..], ", ");
      assert j[|xs[0]|] == ',';
    }
  }

  /** The parts are there exactly for the present fields, and none is blank. */
  lemma PubPartsProps(f: PubFields)
    requires EmptyOrSolid(f.authors) && EmptyOrSolid(f.pages) && EmptyOrSolid(f.time)
    ensures NoBlankPart(PubParts(f))
    ensures |PubParts(f)| == 0 <==>
      f.authors == "" && f.title == "" && f.container == "" && f.pages == "" && f.time == "" && f.doi == ""
  {
    var p0 := AppendIf([], f.authors, f.authors);
    var p1 := AppendIf(p0, f.title, "\"" + f.title + "\"");
    var p2 := AppendIf(p1, f.container, "<i>" + f.container + "</i>");
    var p3 := AppendIf(p2, f.pages, f.pages);
    var p4 := AppendIf(p3, f.time, f.time);
    var p5 := AppendIf(p4, f.doi, "doi: " + f.doi);
    assert NoBlankPart(p0);
    assert !IsSpace(("\"" + f.title + "\"")[0]);
    assert NoBlankPart(p1);
    assert !IsSpace(("<i>" + f.container + "</i>")[0]);
    assert NoBlankPart(p2);
    assert NoBlankPart(p4);
    assert !IsSpace(("doi: " + f.doi)[0]);
    assert NoBlankPart(p5);
  }

  /** The line is empty exactly when all six fields are. */
  lemma PubLineEmpty(f: PubFields)
    requires EmptyOrSolid(f.authors) && EmptyOrSolid(f.pages) && EmptyOrSolid(f.time)
    ensures PubLine(f) == "" <==>
      f.authors == "" && f.title == "" && f.container == "" && f.pages == "" && f.time == "" && f.doi == ""
  {
    PubPartsProps(f);
    JoinCommaBlank(PubParts(f));
    StripEmpty(Join(PubParts(f), ", "));
  }

  /** The fields of a record are each empty or solid. */
  lemma PubFieldsSolid(r: Record)
    ensures var f := PubFieldsOf(r);
      EmptyOrSolid(f.authors) && EmptyOrSolid(f.pages) && EmptyOrSolid(f.time)
    ensures PubFieldsOf(r).authors == "" <==> Resolved(r, AuthorCols) == ""
  {
    var raw := Resolved(r, AuthorCols);
    if raw != "" {
      HighlightAuthorsNotBlank(raw, ResolvedIfKey(r, AuthorOrderCols), MarkOpen);
    } else {
      HighlightAuthorsEmpty(ResolvedIfKey(r, AuthorOrderCols), MarkOpen);
    }
    var f := PubFieldsOf(r);
    assert f.pages == "" || !IsSpace(f.pages[0]);
    assert f.time == "" || !IsSpace(f.time[0]);
  }

  /**
    The line is empty exactly when the authors, title, container, pages, time
    and DOI are all empty.
  */
  lemma PubMainTextEmpty(r: Record)
    ensures PubMainText(r) == "" <==>
      && Resolved(r, AuthorCols) == "" && Resolved(r, TitleCols) == ""
      && Resolved(r, ContainerCols) == "" && Resolved(r, PagesCols) == ""
      && TimeText(r) == "" && ResolvedIfKey(r, DoiCols) == ""
  {
    PubFieldsSolid(r);
    PubLineEmpty(PubFieldsOf(r));
  }

  /** Stripping keeps a prefix that starts with a non-space and ends with one. */
  lemma StripPrefixKept(s: string, n: nat)
    requires 0 < n <= |s| && !IsSpace(s[0]) && !IsSpace(s[n - 1])
    ensures |Strip(s)| >= n && Strip(s)[..n] == s[..n]
  {
    assert SpanLeft(s) == 0;
    assert SpanRight(s) <= |s| - n;
  }

  /** A line with authors starts with them, trailing whitespace aside. */
  lemma PubLineAuthorsFirst(f: PubFields)
    requires f.authors != "" && !IsSpace(f.authors[0])
    ensures var a, m := Strip(f.authors), PubLine(f); a != "" && |a| <= |m| && m[..|a|] == a
  {
    PubPartsAuthorsFirst(f);
    FinishedStartsWith(PubParts(f), f.authors);
  }

  /** Joined, stripped and ended by a period, parts whose first piece starts solid start with that piece, stripped. */
  lemma FinishedStartsWith(ps: seq<string>, a: string)
    requires |ps| > 0 && ps[0] == a && a != "" && !IsSpace(a[0])
    ensures var m := EnsurePeriod(Strip(Join(ps, ", "))); |Strip(a)| <= |m| && m[..|Strip(a)|] == Strip(a)
  {
    var n := StripSolidStart(a);
    var j := Join(ps, ", ");
    JoinStartsWith(ps, ", ");
    assert j[..n] == a[..n];
    StripPrefixKept(j, n);
  }

  /** With authors, the authors are the first part. */
  lemma PubPartsAuthorsFirst(f: PubFields)
    requires f.authors != ""
    ensures |PubParts(f)| > 0 && PubParts(f)[0] == f.authors
  {
  }

  /** A join starts with its first piece. */
  lemma JoinStartsWith(xs: seq<string>, sep: string)
    requires |xs| > 0
    ensures |Join(xs, sep)| >= |xs[0]| && Join(xs, sep)[..|xs[0]|] == xs[0]
  {
    if |xs| > 1 {
      assert Join(xs, sep) == xs[0] + (sep + Join(xs[1..], sep));
    }
  }

  /** A string that starts with a non-space strips to its first `n` characters, `n` the end of its last non-space. */
  lemma StripSolidStart(a: string) returns (n: nat)
    requires a != "" && !IsSpace(a[0])
    ensures 0 < n <= |a| && !IsSpace(a[n - 1]) && Strip(a) == a[..n]
  {
    n := |a| - SpanRight(a);
    assert SpanLeft(a) == 0;
    assert TrimLeft(a) == a;
  }

  /** A line with authors starts with the highlighted authors, trailing whitespace aside. */
  lemma PubMainTextAuthorsFirst(r: Record)
    requires Resolved(r, AuthorCols) != ""
    ensures var a, m := Strip(HighlightedAuthors(r)), PubMainText(r); a != "" && |a| <= |m| && m[..|a|] == a
  {
    HighlightAuthorsNotBlank(Resolved(r, AuthorCols), ResolvedIfKey(r, AuthorOrderCols), MarkOpen);
    PubLineAuthorsFirst(PubFieldsOf(r));
  }

  /** Ending with `d` and then adding the period ends with `d` plus its period. */
  lemma EnsurePeriodSuffix(s: string, d: string)
    requires d != "" && EndsWith(s, d)
    ensures EndsWith(EnsurePeriod(s), EnsurePeriod(d))
  {
    assert s[|s| - 1] == d[|d| - 1];
  }

  /** Joined, stripped and ended by a period, parts whose last piece is `d` end with `d` and the period. */
  lemma FinishedEndsWith(ps: seq<string>, d: string)
    requires |ps| > 0 && ps[|ps| - 1] == d && d != "" && IsStripped(d)
    ensures EndsWith(EnsurePeriod(Strip(Join(ps, ", "))), EnsurePeriod(d))
  {
    var pre := JoinEndsWith(ps, d);
    FinishKeepsSuffix(Join(ps, ", "), pre, d);
  }

  /** Joining by ", " ends with the last piece, after the join of the others and a separator. */
  lemma JoinEndsWith(ps: seq<string>, d: string) returns (pre: string)
    requires |ps| > 0 && ps[|ps| - 1] == d
    ensures pre == (if |ps| == 1 then "" else Join(ps[..|ps| - 1], ", ") + ", ")
    ensures Join(ps, ", ") == pre + d
  {
    var front := ps[..|ps| - 1];
    assert ps == front + [d];
    JoinSnoc(front, d, ", ");
    pre := if |ps| == 1 then "" else Join(front, ", ") + ", ";
  }

  /** Stripping and adding the period keep a last piece with no outer whitespace. */
  lemma FinishKeepsSuffix(s: string, pre: string, d: string)
    requires s == pre + d && d != "" && IsStripped(d)
    ensures EndsWith(EnsurePeriod(Strip(s)), EnsurePeriod(d))
  {
    StripKeepsSuffix(pre, d);
    EnsurePeriodSuffix(Strip(s), d);
  }

  /** Stripping `pre + d` keeps all of `d` when `d` has no outer whitespace. */
  lemma StripKeepsSuffix(pre: string, d: string)
    requires d != "" && IsStripped(d)
    ensures EndsWith(Strip(pre + d), d)
  {
    var s := pre + d;
    assert s[|s| - 1] == d[|d| - 1];
    assert SpanRight(s) == 0;
    assert s[|pre|] == d[0];
    var n := SpanLeft(s);
    assert n <= |pre|;
    assert Strip(s) == s[n..];
    assert s[n..][|s| - n - |d|..] == d;
  }

  /** With a DOI, the DOI part is the last part. */
  lemma PubPartsDoiLast(f: PubFields)
    requires f.doi != ""
    ensures var ps := PubParts(f); |ps| > 0 && ps[|ps| - 1] == "doi: " + f.doi
  {
  }

  /** A line with a DOI ends with `doi: <doi>`, then the period. */
  lemma PubLineDoiLast(f: PubFields)
    requires f.doi != "" && IsStripped(f.doi)
    ensures EndsWith(PubLine(f), EnsurePeriod("doi: " + f.doi))
  {
    PubPartsDoiLast(f);
    FinishedEndsWith(PubParts(f), "doi: " + f.doi);
  }

  // ---------------------------------------------------------------------------
  // build_pub_item and its wrappers

  /** A publication item for its line and its note, note link, link and DOI. */
  function PubItem(main: string, note: string, noteLink: string, link: string, doi: string): string {
    "<li>" + main + NoteHtml(note, noteLink) + LinkHtml(link, doi) + "</li>"
  }

  /** `build_pub_item(r)` */
  function BuildPubItem(r: Record): string {
    PubItem(PubMainText(r), ResolvedIfKey(r, NoteCols), ResolvedIfKey(r, NoteLinkCols),
      ResolvedIfKey(r, LinkCols), ResolvedIfKey(r, DoiCols))
  }

  /** `build_pub_item_with_trailing_br(r)` */
  function BuildPubItemWithTrailingBr(r: Record): string {
    BuildPubItem(r) + "\n<br>"
  }

  /**
    An item is `<li>`, the line, the note then the link (each possibly
    empty), and `</li>`; with neither note nor link nor DOI it is the bare line.
  */
  lemma PubItemShape(main: string, note: string, noteLink: string, link: string, doi: string)
    ensures var it, n, l := PubItem(main, note, noteLink, link, doi), NoteHtml(note, noteLink), LinkHtml(link, doi);
      && |it| == 9 + |main| + |n| + |l|
      && it[..4] == "<li>" && it[4..4 + |main|] == main
      && it[4 + |main|..4 + |main| + |n|] == n
      && it[4 + |main| + |n|..|it| - 5] == l
      && it[|it| - 5..] == "</li>"
    ensures note == "" && link == "" && doi == "" ==> PubItem(main, note, noteLink, link, doi) == "<li>" + main + "</li>"
  {
    Pieces5("<li>", main, NoteHtml(note, noteLink), LinkHtml(link, doi), "</li>");
  }

  /** The five pieces of a concatenation sit at their offsets. */
  lemma Pieces5(a: string, b: string, c: string, d: string, e: string)
    ensures var s := a + b + c + d + e;
      && |s| == |a| + |b| + |c| + |d| + |e|
      && s[..|a|] == a && s[|a|..|a| + |b|] == b
      && s[|a| + |b|..|a| + |b| + |c|] == c
      && s[|a| + |b| + |c|..|s| - |e|] == d
      && s[|s| - |e|..] == e
  {
  }

  /** The item of each record, in order. */
  function MapItems(item: Record -> string, rows: seq<Record>): (items: seq<string>)
    ensures |items| == |rows|
  {
    if |rows| == 0 then [] else MapItems(item, rows[..|rows| - 1]) + [item(rows[|rows| - 1])]
  }

  /** Item `i` is the item of record `i`. */
  lemma {:induction false} MapItemsAt(item: Record -> string, rows: seq<Record>, i: nat)
    requires i < |rows|
    ensures MapItems(item, rows)[i] == item(rows[i])
  {
    if i < |rows| - 1 {
      MapItemsAt(item, rows[..|rows| - 1], i);
    }
  }

  /** One more record adds its item at the end. */
  lemma MapItemsSnoc(item: Record -> string, rows: seq<Record>, r: Record)
    ensures MapItems(item, rows + [r]) == MapItems(item, rows) + [item(r)]
  {
    assert (rows + [r])[..|rows|] == rows;
  }

  /** The items of the first `k + 1` records are those of the first `k`, then record `k`'s. */
  lemma MapItemsPrefix(item: Record -> string, rows: seq<Record>, k: nat)
    requires k < |rows|
    ensures MapItems(item, rows[..k + 1]) == MapItems(item, rows[..k]) + [item(rows[k])]
  {
    assert rows[..k + 1][..k] == rows[..k];
  }

  /** `build_pub_items(rows)`: the items joined by a blank line. */
  function BuildPubItems(rows: seq<Record>): string {
    Join(MapItems(BuildPubItem, rows), "\n\n")
  }

  /** `build_featured_items(rows)`: each item followed by its own `<br>`. */
  function BuildFeaturedItems(rows: seq<Record>): string {
    Join(MapItems(BuildPubItemWithTrailingBr, rows), "\n\n")
  }

  /** `build_conference_items_with_trailing_br(rows)` */
  function BuildConferenceItemsWithTrailingBr(rows: seq<Record>): string {
    Join(MapItems(r => BuildPubItem(r) + "\n<br>", rows), "\n\n")
  }

  /** `build_journal_items_with_trailing_br`, which loops and appends. */
  method BuildJournalItemsWithTrailingBr(rows: seq<Record>) returns (s: string)
    ensures s == BuildFeaturedItems(rows)
  {
    var out := CollectJournalItems(rows);
    s := Join(out, "\n\n");
  }

  /** The loop of `build_journal_items_with_trailing_br`: each record's item and its `<br>`, in order. */
  method CollectJournalItems(rows: seq<Record>) returns (out: seq<string>)
    ensures out == MapItems(BuildPubItemWithTrailingBr, rows)
  {
    out := [];
    var k := 0;
    while k < |rows|
      invariant k <= |rows|
      invariant out == MapItems(BuildPubItemWithTrailingBr, rows[..k])
    {
      var item := BuildPubItem(rows[k]) + "\n<br>";
      FeaturedItemsStep(rows, k, out, item);
      out := out + [item];
      k := k + 1;
    }
    assert rows[..k] == rows;
  }

  /** Appending record `k`'s item with its `<br>` extends the items of the first `k` records by one. */
  lemma FeaturedItemsStep(rows: seq<Record>, k: nat, out: seq<string>, item: string)
    requires k < |rows| && out == MapItems(BuildPubItemWithTrailingBr, rows[..k])
    requires item == BuildPubItem(rows[k]) + "\n<br>"
    ensures out + [item] == MapItems(BuildPubItemWithTrailingBr, rows[..k + 1])
  {
    MapItemsPrefix(BuildPubItemWithTrailingBr, rows, k);
  }

  /** Conference and featured sections are written the same way. */
  lemma ConferenceAgreesWithFeatured(rows: seq<Record>)
    ensures BuildConferenceItemsWithTrailingBr(rows) == BuildFeaturedItems(rows)
  {
    var a := MapItems(r => BuildPubItem(r) + "\n<br>", rows);
    var b := MapItems(BuildPubItemWithTrailingBr, rows);
    forall i | 0 <= i < |rows| ensures a[i] == b[i] {
      MapItemsAt(r => BuildPubItem(r) + "\n<br>", rows, i);
      MapItemsAt(BuildPubItemWithTrailingBr, rows, i);
    }
    assert a == b;
  }

  /** One more record adds its item after a blank line. */
  lemma BuildFeaturedItemsSnoc(rows: seq<Record>, r: Record)
    requires |rows| > 0
    ensures BuildFeaturedItems(rows + [r]) == BuildFeaturedItems(rows) + "\n\n" + BuildPubItemWithTrailingBr(r)
  {
    MapItemsSnoc(BuildPubItemWithTrailingBr, rows, r);
    JoinSnoc(MapItems(BuildPubItemWithTrailingBr, rows), BuildPubItemWithTrailingBr(r), "\n\n");
  }

  /** With no records the section body is empty. */
  lemma BuildPubItemsEmpty()
    ensures BuildPubItems([]) == "" && BuildFeaturedItems([]) == ""
  {
  }

  // ---------------------------------------------------------------------------
  // build_book_chapter_item

  datatype ChapterFields = ChapterFields(
    authors: string, chapter: string, book: string, isbn: string, publisher: string, year: string)

  function ChapterFieldsOf(r: Record): ChapterFields {
    ChapterFields(HighlightedAuthors(r), Resolved(r, ChapterCols), Resolved(r, BookCols),
      Resolved(r, IsbnCols), Resolved(r, PublisherCols), Resolved(r, YearCols))
  }

  function ChapterParts(f: ChapterFields): seq<string> {
    var p := AppendIf([], f.authors, f.authors);
    var p := AppendIf(p, f.chapter, "Chapter \"" + f.chapter + "\"");
    var p := AppendIf(p, f.book, "for Book \"" + f.book + "\"");
    var p := AppendIf(p, f.isbn, "ISBN: " + f.isbn);
    var p := AppendIf(p, f.publisher, "<i>" + f.publisher + "</i>");
    AppendIf(p, f.year, f.year)
  }

  /** The citation for resolved fields (not stripped, unlike the publication line). */
  function ChapterLine(f: ChapterFields): string {
    EnsurePeriod(Join(ChapterParts(f), ", "))
  }

  function ChapterMainText(r: Record): string {
    ChapterLine(ChapterFieldsOf(r))
  }

  /** The citation of `build_book_chapter_item`, built by appending the present parts. */
  method ComposeChapterMainText(r: Record) returns (main: string)
    ensures main == ChapterMainText(r)
  {
    var f := ResolveChapterFields(r);
    main := FinishChapterLine(f);
  }

  /** The citation from the resolved fields. */
  method FinishChapterLine(f: ChapterFields) returns (main: string)
    ensures main == ChapterLine(f)
  {
    var parts := CollectChapterParts(f);
    main := AddPeriod(Join(parts, ", "));
  }

  /** The column lookups at the top of `build_book_chapter_item`. */
  method ResolveChapterFields(r: Record) returns (f: ChapterFields)
    ensures f == ChapterFieldsOf(r)
  {
    var authors := HighlightAuthorsIntended(Resolved(r, AuthorCols), ResolvedIfKey(r, AuthorOrderCols));
    var chapter := Resolved(r, ChapterCols);
    var book := Resolved(r, BookCols);
    var isbn := Resolved(r, IsbnCols);
    var publisher := Resolved(r, PublisherCols);
    var year := Resolved(r, YearCols);
    f := ChapterFields(authors, chapter, book, isbn, publisher, year);
  }

  /** The appends of `build_book_chapter_item`, one per present field. */
  method CollectChapterParts(f: ChapterFields) returns (parts: seq<string>)
    ensures parts == ChapterParts(f)
  {
    parts := [];
    if f.authors != "" {
      parts := parts + [f.authors];
    }
    if f.chapter != "" {
      parts := parts + ["Chapter \"" + f.chapter + "\""];
    }
    if f.book != "" {
      parts := parts + ["for Book \"" + f.book + "\""];
    }
    if f.isbn != "" {
      parts := parts + ["ISBN: " + f.isbn];
    }
    if f.publisher != "" {
      parts := parts + ["<i>" + f.publisher + "</i>"];
    }
    if f.year != "" {
      parts := parts + [f.year];
    }
  }

  /** The citation is empty exactly when all six fields are. */
  lemma ChapterLineEmpty(f: ChapterFields)
    requires EmptyOrSolid(f.authors) && EmptyOrSolid(f.year)
    ensures ChapterLine(f) == "" <==>
      f.authors == "" && f.chapter == "" && f.book == "" && f.isbn == "" && f.publisher == "" && f.year == ""
  {
    var ps := ChapterParts(f);
    JoinEmpty(ps, ", ");
  }

  /** The citation of a record is empty exactly when none of its six fields is present. */
  lemma ChapterMainTextEmpty(r: Record)
    ensures ChapterMainText(r) == "" <==>
      && Resolved(r, AuthorCols) == "" && Resolved(r, ChapterCols) == ""
      && Resolved(r, BookCols) == "" && Resolved(r, IsbnCols) == ""
      && Resolved(r, PublisherCols) == "" && Resolved(r, YearCols) == ""
  {
    PubFieldsSolid(r);
    var f := ChapterFieldsOf(r);
    assert f.year == "" || !IsSpace(f.year[0]);
    ChapterLineEmpty(f);
  }

  /** The chapter's image, sized to a fifth of the width. */
  function ImageHtml(image: string): string {
    if image == "" then "" else ImageTag(image)
  }

  function ImageTag(image: string): string {
    "<br><br><img src=\"" + image
    + "\" width=\"20%\" class=\"animate__animated animate__fadeIn animate__slow animate__delay-1s\">"
  }

  /** A chapter item for its citation, note, note link, link, DOI and image. */
  function ChapterItem(main: string, note: string, noteLink: string, link: string, doi: string, image: string): string {
    "<li>" + main + NoteHtml(note, noteLink) + LinkHtml(link, doi) + ImageHtml(image) + "</li>"
  }

  /** `build_book_chapter_item(r)` */
  function BuildBookChapterItem(r: Record): string {
    ChapterItem(ChapterMainText(r), ResolvedIfKey(r, NoteCols), ResolvedIfKey(r, NoteLinkCols),
      ResolvedIfKey(r, LinkCols), ResolvedIfKey(r, DoiCols), ResolvedIfKey(r, ImageCols))
  }

  /**
    A chapter item is the publication-style item for its citation with the
    image inserted just before `</li>`.
  */
  lemma ChapterItemImageLast(main: string, note: string, noteLink: string, link: string, doi: string, image: string)
    ensures var p := PubItem(main, note, noteLink, link, doi);
      ChapterItem(main, note, noteLink, link, doi, image) == p[..|p| - 5] + ImageHtml(image) + "</li>"
  {
    var p := PubItem(main, note, noteLink, link, doi);
    var body := "<li>" + main + NoteHtml(note, noteLink) + LinkHtml(link, doi);
    assert p == body + "</li>";
    assert p[..|p| - 5] == body;
  }

  /** `build_book_chapter_items(rows)` */
  function BuildBookChapterItems(rows: seq<Record>): string {
    Join(MapItems(r => BuildBookChapterItem(r) + "\n<br>", rows), "\n\n")
  }
}
