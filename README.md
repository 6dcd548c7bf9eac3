# Excel-to-homepage updater, modelled in Dafny

`update_index_from_excel.py` refreshes a personal academic homepage (`index.html`) from a
workbook. Every worksheet becomes a list of row records: the first non-blank row names the
columns and every later non-blank row becomes one record. The worksheet's title picks a
content category (news, featured article, book chapter, journal, conference, patent,
award, correspondence, research interests, header/profile, biography or unknown). Each
category has a formatter that turns its records into an HTML fragment, finding columns
through a bilingual list of candidate names. The fragment then replaces the inner HTML of
the first `<ul>`/`<ol>`/`<h5>` that follows the section's anchor `<div id="..."></div>`,
keeping that block's indentation. A header sheet instead rewrites the name, e-mail and IEEE
link in the page header with first-match substitutions.

The model has one Dafny module per component:

| module | file | models |
|---|---|---|
| `Wrappers` | `wrappers.dfy` | `Option` |
| `Strings` | `strings.dfy` | whitespace strip, lower-casing, find, join, split, `splitlines`, integer parsing |
| `Records` | `records.dfy` | a row dict as its insertion-ordered list of key/value pairs; `d[k] = v`, `d.get(k, "")` |
| `RowExtractor` | `row_extractor.dfy` | `read_rows_as_dicts` |
| `FieldResolver` | `field_resolver.dfy` | `normalize_name`, `find_col`, and the two ways the formatters read a column |
| `Authors` | `authors.dfy` | `highlight_authors` and the name-highlighting pattern |
| `Publications` | `publications.dfy` | publication and book-chapter items and lists |
| `ListFormatters` | `list_formatters.dfy` | `strip_leading_index`, news, patents, awards, correspondence, text block |
| `HtmlPatcher` | `html_patcher.dfy` | `replace_section_list`, `replace_text_after_section` |
| `Workbook` | `workbook.dfy` | the sheet classification, header substitutions and patch order of `process_workbook_to_html` |

Each accumulating loop of the source is a `method` whose `ensures` equates its result with a
specification function defined over a prefix of the input, such as
`ListFormatters.BuildPatentItems` and `ListFormatters.PatentItems`. The code's properties
are proved as lemmas about those functions. The rest of the code computes values and is
written as functions, and so are the search loops of `find_col` and `build_text_block`
(`FieldResolver.FirstExactFrom`, `FieldResolver.FirstContainingFrom`,
`ListFormatters.TextBlockFrom`).

A workbook is passed in as values: a sequence of `Sheet(title, grid)`, where a grid is a
sequence of rows of `Option<string>` cells (`None` is an empty cell). The HTML file is a
string that goes in and comes out. Reading the workbook and the file, and writing the file
back, are outside the model.

Three behaviours of the code worth noting:
- A data row shorter than the header row gives a record without the trailing keys, as
  Python's `zip` does; those keys are absent rather than mapped to "".
- A patent state that contains both 公开 and 授权 is coloured blue, because 公开 is tested
  first.
- The journal builder `build_journal_items_with_trailing_br` produces exactly what
  `build_featured_items` produces.

## Model

| member | source | states |
|---|---|---|
| RowExtractor.HeaderIndex | update_index_from_excel.py:25-31 | the header row is the first row with a non-blank cell; None exactly when every row is blank |
| RowExtractor.FindHeaderRow | update_index_from_excel.py:25-31 | the loop finds the same row as `HeaderIndex` |
| RowExtractor.HeaderRow | update_index_from_excel.py:33-39 | the loop builds the header names: the stripped cell text, or `col_<i>` for a blank cell |
| RowExtractor.HeadersNonEmpty | update_index_from_excel.py:33-39 | no header name is empty |
| RowExtractor.ZipRow | update_index_from_excel.py:48-50 | the loop's record is the header-by-cell assignment up to the shorter of the two rows |
| RowExtractor.ZipRecordFields | update_index_from_excel.py:48-50 | a zipped record has distinct keys, exactly the first-seen header names of the zipped prefix, and each header not repeated later maps to its stripped cell |
| RowExtractor.ZipDataRows | update_index_from_excel.py:41-51 | the loop yields one record per non-blank row after the header, in order |
| RowExtractor.ReadRowsAsDicts | update_index_from_excel.py:19-52 | the whole reader equals `Extract`: header search, naming, then zipping of the data rows |
| RowExtractor.ExtractBlankGrid | update_index_from_excel.py:30-31 | a grid without a non-blank cell yields no records |
| RowExtractor.ExtractOnePerDataRow | update_index_from_excel.py:41-51 | the records correspond one-to-one, in increasing order, to the non-blank rows below the header, each zipped against the header names |
| RowExtractor.DataRecordsStep | update_index_from_excel.py:42-51 | a blank row adds nothing; a non-blank row adds its zipped record at the end |
| RowExtractor.BlankCellText | update_index_from_excel.py:27 | a cell is blank exactly when its text is "" |
| Records.IndexOfSpec | update_index_from_excel.py:49-50 | a key is found at its first position, and not found exactly when absent |
| Records.PutKeys | update_index_from_excel.py:50 | `d[k] = v` keeps keys distinct and appends `k` only when it is new |
| Records.PutLookup | update_index_from_excel.py:50 | after `d[k] = v`, `k` maps to `v` |
| Records.LookupPutOther | update_index_from_excel.py:50 | `d[k] = v` leaves every other key's value alone |
| Records.AssignKeys | update_index_from_excel.py:49-50 | assigning a run of keys leaves them distinct and deduplicated in first-seen order |
| Records.AssignLookup | update_index_from_excel.py:49-50 | a key not assigned again later keeps the value given with it |
| Records.DedupMembers | update_index_from_excel.py:49-50 | deduplicating keeps every name and adds none |
| Records.GetMissing | update_index_from_excel.py:50 | `get(k, "")` on an absent key is "" |
| FieldResolver.NormalizeNameForm | update_index_from_excel.py:55-56 | a normalised title has no upper-case letter, no leading or trailing whitespace, and single spaces as its only whitespace |
| FieldResolver.NormalizedFixed | update_index_from_excel.py:55-56 | a title already in normal form is unchanged |
| FieldResolver.NormalizeNameIdempotent | update_index_from_excel.py:55-56 | normalising twice equals normalising once |
| FieldResolver.CollapseSpaceForm | update_index_from_excel.py:56 | collapsing whitespace runs leaves single spaces, keeps emptiness, the whitespace-ness of both ends, and the absence of upper case |
| FieldResolver.LastWithLowerSpec | update_index_from_excel.py:61 | the lower-case map keeps the last key with a given lower-case form, and has none exactly when no key has it |
| FieldResolver.FirstExactFromSpec | update_index_from_excel.py:62-64 | the first candidate with a case-insensitive exact key is chosen; none are skipped past |
| FieldResolver.FirstContainingFromSpec | update_index_from_excel.py:66-69 | the substring pass picks the first key whose lower-case form contains some candidate |
| FieldResolver.FindCol | update_index_from_excel.py:59-70 | a found column is always a key of the record |
| FieldResolver.FindColExact | update_index_from_excel.py:61-64 | when no earlier candidate has an exact key and candidate i has one, the result is the record's last key equal to it ignoring case |
| FieldResolver.FindColSubstring | update_index_from_excel.py:66-69 | without any exact match, the result is the first key containing a candidate |
| FieldResolver.FindColNone | update_index_from_excel.py:70 | None exactly when no key contains any candidate, ignoring case |
| FieldResolver.FindColTitle | update_index_from_excel.py:61-64 | a `Title` column is found for the candidates `title`/`题目` |
| FieldResolver.Resolved | update_index_from_excel.py:139 | a column read the `find_col(..) or ""` way is empty or has no surrounding whitespace |
| FieldResolver.ResolvedIfKeyAgrees | update_index_from_excel.py:185-186 | without an empty-named key, the `if key else ""` read agrees with the `or ""` read |
| FieldResolver.ResolvedMissing | update_index_from_excel.py:59-70 | when no key matches, both ways of reading give "" |
| Authors.HighlightCopies | update_index_from_excel.py:76-77 | text without a possible match start is copied unchanged, whatever the markup |
| Authors.HighlightNameNoMatch | update_index_from_excel.py:76-77 | without any match the text is unchanged, whatever the markup |
| Authors.HighlightOneMatch | update_index_from_excel.py:76-77 | a single match is put between the given opening tag and `</font>`, and the rest is kept; with `SourceOpen` this is the template's `<font class=\"deepblue\">` |
| Authors.FullNameMatch | update_index_from_excel.py:73 | `Yuchen Li` between word boundaries is a match of its whole length |
| Authors.HighlightFullName | update_index_from_excel.py:76-77 | `Yuchen Li` between non-word characters is put between the given opening tag and `</font>`, with everything else kept |
| Authors.HighlightNameExample | update_index_from_excel.py:76-77 | the name inside a comma-separated author list is marked with the backslashed `<font class=\"deepblue\">` as written, and with `<font class="deepblue">` under the intended markup |
| Authors.NameMatchEnd | update_index_from_excel.py:73 | a match starts at a `y`/`Y` and ends inside the text, after its start |
| Authors.SpaceRun | update_index_from_excel.py:73 | the measured `\s` run is maximal |
| Authors.AuthorIndexNatToString | update_index_from_excel.py:91-98 | the decimal form of k ≥ 1 gives position k |
| Authors.TokensJoin | update_index_from_excel.py:102 | splitting `", "`-joined stripped tokens without commas gives the tokens back |
| Authors.TokensForm | update_index_from_excel.py:102 | every token is stripped and comma-free |
| Authors.HighlightAuthorsEmpty | update_index_from_excel.py:88-89 | empty authors stay empty |
| Authors.HighlightAuthorsByPosition | update_index_from_excel.py:101-108 | with a valid position k, the result is the tokens joined by ", " with token k wrapped in `<font class="deepblue">`; split again it has the same tokens except token k, which is wrapped |
| Authors.HighlightAuthorsFallback | update_index_from_excel.py:92-111 | when the order cell is empty, does not parse as an integer, is below 1 or is past the last token, the name pattern is used |
| Authors.HighlightAuthorsNotBlank | update_index_from_excel.py:80-111 | authors that start with a non-space character highlight to a text that starts with a non-space character |
| Authors.HighlightAuthorsExample | update_index_from_excel.py:101-108 | order "2" wraps the second author in `<font class="deepblue">` |
| Authors.HighlightAuthorsExampleFallback | update_index_from_excel.py:110-111 | an empty order falls back to the pattern, which marks the same author with the backslashed `<font class=\"deepblue\">` |
| Authors.FallbackMarkupDiffers | update_index_from_excel.py:76-77 | as written, the fallback and the position branch give different text for the same list and author |
| Authors.IntendedMarkupAgrees | update_index_from_excel.py:76-77 | with the intended markup, the fallback and the position branch give the same text for that list |
| Authors.IntendedFallbackWraps | update_index_from_excel.py:76-77 | with the intended markup, the fallback wraps its one match exactly as the position branch wraps a token |
| Strings.Strip | update_index_from_excel.py:139 | a stripped string is empty or has a non-space character at both ends |
| Strings.StripEmpty | update_index_from_excel.py:124 | stripping gives "" exactly for an all-whitespace string |
| Strings.StripIdempotent | update_index_from_excel.py:139 | stripping twice equals stripping once |
| Strings.Find | update_index_from_excel.py:509 | `find` returns the first occurrence, and none exactly when the text does not contain the pattern |
| Strings.JoinSplit | update_index_from_excel.py:102 | joining the pieces of a split by the separator gives the string back |
| Strings.SplitLinesJoin | update_index_from_excel.py:536 | joining the lines with `\n` gives the text back, bar a final line feed |
| Strings.JoinNonEmptyEmpty | update_index_from_excel.py:124-126 | joining the non-empty values gives "" exactly when every value is empty |
| Strings.ParseIntNatToString | update_index_from_excel.py:94 | the integer parser reads a decimal numeral back |
| Publications.EnsurePeriod | update_index_from_excel.py:177-179 | the line is unchanged or gets one period; it is empty exactly when the input is; a non-empty line ends with a period |
| Publications.EnsurePeriodIdempotent | update_index_from_excel.py:178-179 | adding the period twice equals adding it once |
| Publications.EnsurePeriodNoDouble | update_index_from_excel.py:178-179 | a line ending in ".." only arises from text that already ended so |
| Publications.MonthYearCases | update_index_from_excel.py:156-158 | month and year joined by ", ", either omitted when blank |
| Publications.TimeTextPrefersTime | update_index_from_excel.py:153-158 | an explicit time wins; otherwise month and year are used |
| Publications.TimeTextEmpty | update_index_from_excel.py:153-158 | the time part is empty exactly when time, month and year are all empty |
| Publications.NoteHtmlCases | update_index_from_excel.py:197-205 | no note gives no note HTML; a note without a link is a plain red parenthetical |
| Publications.LinkHtmlCases | update_index_from_excel.py:206-211 | no link HTML exactly when URL and DOI are both empty; a URL beats the DOI; a DOI alone links to `https://doi.org/<doi>` |
| Publications.ComposePubMainText | update_index_from_excel.py:135-180 | the procedure equals the publication-line specification |
| Publications.CollectPubParts | update_index_from_excel.py:163-175 | the parts are collected in the fixed field order, each only when non-empty |
| Publications.PubPartsProps | update_index_from_excel.py:163-175 | no part is blank, and there are none exactly when every field is empty |
| Publications.PubMainTextEmpty | update_index_from_excel.py:135-180 | the line is empty exactly when authors, title, container, pages, time and DOI all are |
| Publications.PubMainTextAuthorsFirst | update_index_from_excel.py:164-165 | when the authors column is non-empty, the highlighted authors, without trailing whitespace, open the line |
| Publications.PubLineDoiLast | update_index_from_excel.py:174-179 | a DOI, with its period, closes the line |
| Publications.PubItemShape | update_index_from_excel.py:213-214 | an item is `<li>`, main text, note HTML, link HTML, `</li>`, in that order |
| Publications.MapItemsAt | update_index_from_excel.py:295-297 | item i of a list is built from row i |
| Publications.BuildJournalItemsWithTrailingBr | update_index_from_excel.py:324-329 | the loop builds the featured-article list |
| Publications.ConferenceAgreesWithFeatured | update_index_from_excel.py:300-312 | conference and featured lists are the same |
| Publications.BuildFeaturedItemsSnoc | update_index_from_excel.py:300-302 | a new row adds a blank line and its item with a trailing `<br>` |
| Publications.BuildPubItemsEmpty | update_index_from_excel.py:295-302 | no rows give an empty list |
| Publications.ComposeChapterMainText | update_index_from_excel.py:224-252 | the procedure equals the chapter-line specification |
| Publications.CollectChapterParts | update_index_from_excel.py:236-248 | chapter parts in their fixed order, each only when non-empty |
| Publications.ChapterMainTextEmpty | update_index_from_excel.py:224-252 | the chapter line is empty exactly when all six fields are |
| Publications.ChapterItemImageLast | update_index_from_excel.py:287-292 | a chapter item is the publication item with the image inserted just before `</li>` |
| ListFormatters.IndexEndSound | update_index_from_excel.py:344-346 | a removed prefix has the shape spaces, digits, spaces, optional mark and spaces |
| ListFormatters.IndexEndLongest | update_index_from_excel.py:344-346 | no prefix of that shape is longer than the one removed |
| ListFormatters.StripLeadingIndexRemoves | update_index_from_excel.py:344-346 | the longest index prefix is removed, and what remains does not start with a space |
| ListFormatters.StripLeadingIndexUnchanged | update_index_from_excel.py:344-346 | text is unchanged exactly when no digit follows its leading spaces |
| ListFormatters.StripLeadingIndexNumbered | update_index_from_excel.py:345-346 | "1. Deep learning" loses its number |
| ListFormatters.StripLeadingIndexParenthesis | update_index_from_excel.py:345-346 | " 12) Patent" loses its number |
| ListFormatters.StripLeadingIndexNoNumber | update_index_from_excel.py:345-346 | text without a leading number is kept |
| ListFormatters.IsHidden | update_index_from_excel.py:358-361 | a row is hidden when its visibility flag is non-empty and not one of the accepted tokens |
| ListFormatters.NotHidden | update_index_from_excel.py:358-361 | a row without a visibility column, or with an empty flag, is shown |
| ListFormatters.FlattenDropSilent | update_index_from_excel.py:396-399 | rows that give no item can be removed without changing the list |
| ListFormatters.FlattenPairsAt | update_index_from_excel.py:127-131 | when each row gives a line and `<br>`, positions 2i and 2i+1 hold row i's pair |
| ListFormatters.NewsRow | update_index_from_excel.py:117-130 | the procedure equals the news-line specification |
| ListFormatters.BuildNewsItems | update_index_from_excel.py:114-132 | the loop equals the news list specification |
| ListFormatters.NewsItemsAt | update_index_from_excel.py:127-131 | every news row gives its line followed by `<br>` |
| ListFormatters.NewsTextEmpty | update_index_from_excel.py:123-126 | the news text is empty exactly when every value of the row is |
| ListFormatters.NewsLineShape | update_index_from_excel.py:127-130 | a line is `<li>`, then `<i>date</i> : ` when there is a date, the text and `</li>` |
| ListFormatters.KeptValuesMembers | update_index_from_excel.py:374-380 | a value is kept exactly when some field holds it, it is non-empty, and its lower-case key is not skipped |
| ListFormatters.CollectKept | update_index_from_excel.py:374-380 | the loop appends the kept values, in field order, to the parts it starts with |
| ListFormatters.PatentRow | update_index_from_excel.py:351-398 | the procedure equals the patent row specification |
| ListFormatters.CollectPatentParts | update_index_from_excel.py:364-380 | the parts of a shown patent row are its index-stripped title, when there is one, and then its kept fields |
| ListFormatters.BuildPatentItems | update_index_from_excel.py:349-399 | the loop equals the patent list specification |
| ListFormatters.StateColours | update_index_from_excel.py:384-394 | red exactly when the state holds 授权 but not 公开; blue exactly for other non-empty states; nothing exactly for an empty state |
| ListFormatters.PatentHiddenDropped | update_index_from_excel.py:358-361 | hidden rows do not affect the patent list |
| ListFormatters.PatentTitleFirst | update_index_from_excel.py:364-371 | the title, with its index removed, is the first part |
| ListFormatters.PatentOtherFields | update_index_from_excel.py:374-380 | other fields are kept as above, and note and the empty key are always skipped |
| ListFormatters.PatentItemsShape | update_index_from_excel.py:382-398 | no item exactly when the text is empty; otherwise `<li>` text, state, `</li>` and `<br>` |
| ListFormatters.AwardRow | update_index_from_excel.py:404-441 | the procedure equals the award row specification |
| ListFormatters.BuildAwardItems | update_index_from_excel.py:402-442 | the loop equals the award list specification |
| ListFormatters.AwardHiddenDropped | update_index_from_excel.py:406-410 | hidden rows do not affect the award list |
| ListFormatters.AwardWhenFirst | update_index_from_excel.py:432-437 | the time, else the year, opens the text before the index-stripped fields |
| ListFormatters.AwardItemsShape | update_index_from_excel.py:428-441 | no item exactly when the text is empty; a note adds a red parenthetical |
| ListFormatters.AwardOtherFields | update_index_from_excel.py:418-424 | the kept values are exactly the non-empty values of fields outside the award skip set |
| ListFormatters.FindFilled | update_index_from_excel.py:470 | the loop finds the first row with a non-empty value, or the empty record |
| ListFormatters.NameContentList | update_index_from_excel.py:462-467 | the loop equals the name/content list specification |
| ListFormatters.NameContentRowShape | update_index_from_excel.py:463-467 | a row with both values gives its line and `<br>`; any other row gives nothing |
| ListFormatters.NameContentDropsIncomplete | update_index_from_excel.py:465 | rows missing the name or the content do not affect the list |
| ListFormatters.ContactList | update_index_from_excel.py:477-490 | the procedure equals the contact list specification |
| ListFormatters.ContactItemsShape | update_index_from_excel.py:477-490 | two lines per non-empty field and one for the homepage, email first, the homepage last |
| ListFormatters.BuildCorrespondence | update_index_from_excel.py:445-492 | the procedure equals the correspondence specification, choosing name/content or the traditional form from the first row |
| ListFormatters.TextBlockFirstFilled | update_index_from_excel.py:495-501 | the text block joins, with spaces, the non-empty values of the first row that has one |
| ListFormatters.TextBlockEmpty | update_index_from_excel.py:495-501 | the block is empty exactly when no row has a non-empty value |
| HtmlPatcher.TagEndAtSound | update_index_from_excel.py:514-521 | a tag match has the shape `<`, spaces, tag, non-`>` run, `>` (or `</`, spaces, tag, spaces, `>`) |
| HtmlPatcher.OpeningComplete | update_index_from_excel.py:514 | every opening tag of that shape is matched, with that end |
| HtmlPatcher.ClosingComplete | update_index_from_excel.py:521 | every closing tag of that shape is matched, with that end |
| HtmlPatcher.Search | update_index_from_excel.py:515-522 | a search returns the leftmost match from its start, and none when there is no match |
| HtmlPatcher.SearchIs | update_index_from_excel.py:515-522 | the leftmost match is what the search returns |
| HtmlPatcher.Locate | update_index_from_excel.py:508-526 | a located site has the first anchor, the first opening tag after it and the first closing tag after that |
| HtmlPatcher.LocatedUnique | update_index_from_excel.py:508-526 | any site meeting that description is what location returns |
| HtmlPatcher.IndentOf | update_index_from_excel.py:531-532 | the indentation is non-empty and all spaces and tabs |
| HtmlPatcher.IndentOfDefault | update_index_from_excel.py:532 | without a line feed followed by spaces or tabs, the twelve-space default is used |
| HtmlPatcher.IndentOfLeading | update_index_from_excel.py:531 | a leading `\n` plus blanks before a non-space character gives those blanks |
| HtmlPatcher.UnchangedWithoutAnchor | update_index_from_excel.py:509-511 | a page without the anchor is returned unchanged by both replacers |
| HtmlPatcher.UnchangedWithoutOpening | update_index_from_excel.py:515-517 | without an opening tag after the anchor the page is unchanged |
| HtmlPatcher.UnchangedWithoutClosing | update_index_from_excel.py:522-524 | without a closing tag after the opening one the page is unchanged |
| HtmlPatcher.SpliceKeeps | update_index_from_excel.py:542 | the splice keeps everything up to the opening tag's end and from the closing tag on, with the new inner text between |
| HtmlPatcher.ReplaceSectionListAt | update_index_from_excel.py:529-542 | at a located site, the list's inner HTML becomes the indented block for the old indentation |
| HtmlPatcher.ReplaceTextAfterSectionAt | update_index_from_excel.py:564-572 | at a located site, the inner text becomes `\n`, the old indentation, the text, `\n` |
| HtmlPatcher.ListInnerJoin | update_index_from_excel.py:536-540 | the new inner is a line feed, then the lines `<br>` and each new line behind the indentation, each followed by a line feed |
| HtmlPatcher.ListInnerLines | update_index_from_excel.py:536-540 | the lines of the new inner are the indented `<br>` and the indented new lines |
| HtmlPatcher.ListInnerKeepsIndent | update_index_from_excel.py:529-540 | a replaced list keeps the indentation it was given, so a second replacement reuses it |
| HtmlPatcher.TextInnerKeepsIndent | update_index_from_excel.py:568-571 | a replaced text block keeps its indentation |
| HtmlPatcher.SplitLinesJoinLines | update_index_from_excel.py:536 | lines joined with line feeds plus a final one split back into the same lines |
| Workbook.ClassifyBiography | update_index_from_excel.py:590-591 | titles in the biography set, and only those, are skipped as biography |
| Workbook.ClassifyNews | update_index_from_excel.py:594-596 | the news titles, and only those, go to News/`ul` |
| Workbook.ClassifyFeatured | update_index_from_excel.py:599-601 | the featured titles, and only those, go to Featured Article/`ol` |
| Workbook.ClassifyChapter | update_index_from_excel.py:602-604 | the chapter titles, and only those, go to Book Chapter/`ol` |
| Workbook.ClassifyJournal | update_index_from_excel.py:605-607 | the journal titles, and only those, go to Refereed Journal Papers/`ol` |
| Workbook.ClassifyConference | update_index_from_excel.py:608-610 | the conference titles, and only those, go to Refereed Conference Papers/`ol` |
| Workbook.ClassifyPatent | update_index_from_excel.py:613-615 | the patent titles, and only those, go to Patent/`ol` |
| Workbook.ClassifyAward | update_index_from_excel.py:618-620 | the award titles, and only those, go to Award/`ul` |
| Workbook.ClassifyContact | update_index_from_excel.py:623-625 | the correspondence titles, and only those, go to Correspondence/`ul` |
| Workbook.ClassifyInterest | update_index_from_excel.py:628-630 | the interest titles, and only those, go to the Research Interests/`h5` text patch |
| Workbook.ClassifyHeader | update_index_from_excel.py:633-659 | the header titles, and only those, update the profile |
| Workbook.ClassifyIgnored | update_index_from_excel.py:661 | a title is ignored exactly when it is in none of the sets |
| Workbook.FirstBracket | update_index_from_excel.py:647-657 | the substitution site is the leftmost prefix occurrence that has a closing suffix on its line |
| Workbook.LazyEnd | update_index_from_excel.py:647 | the lazy `.*?` ends at the first suffix occurrence, with no line feed before it |
| Workbook.SubFirstSpec | update_index_from_excel.py:647-657 | without a match the page is unchanged; otherwise only the text between prefix and suffix is replaced by the value |
| Workbook.ApplyProfileEmpty | update_index_from_excel.py:646-658 | a profile with no values leaves the page untouched |
| Workbook.ApplyHeaderRow | update_index_from_excel.py:635-658 | the header update equals the profile substitutions for the first row's values |
| Workbook.ReadSheet | update_index_from_excel.py:583-659 | one sheet extends the plan exactly as the per-sheet step says |
| Workbook.ProcessWorkbookToHtml | update_index_from_excel.py:575-669 | the whole procedure equals the workbook fold: collect patches, then apply list and then text patches |
| Workbook.ApplyListPatches | update_index_from_excel.py:664-665 | the loop applies the list patches in order |
| Workbook.ApplyTextPatches | update_index_from_excel.py:668-669 | the loop applies the text patches in order |
| Workbook.CollectSplits | update_index_from_excel.py:583-659 | collection is the header pass over the page plus the list patches and text patches in sheet order |
| Workbook.ProcessWorkbookOrder | update_index_from_excel.py:583-669 | header substitutions happen first, then every list patch, then every text patch |
| Workbook.SilentSheet | update_index_from_excel.py:586-591 | an empty, biography or unknown sheet changes nothing |
| Workbook.NoSheets | update_index_from_excel.py:583-669 | a workbook without sheets leaves the page as it was |
| Workbook.ListPatchesAt | update_index_from_excel.py:594-625 | a non-empty list sheet appends exactly its patch with its section, tag and built content |

## Findings

| source | as written | input that shows it | evidently intended | confidence | as-written member | corrected member |
|---|---|---|---|---|---|---|
| update_index_from_excel.py:76-77 | the raw template `r"<font class=\"deepblue\">\1</font>"` keeps `\"` as a backslash and a quote, so the name pattern writes `class=\"deepblue\"`, an attribute value that a `.deepblue` style rule does not match, while the position branch (line 105) writes `class="deepblue"` | authors `Alice Lee, Yuchen Li, Bob Chen` with an empty `author_order` | both branches write `<font class="deepblue">` | not executed | Authors.FallbackMarkupDiffers | Authors.IntendedMarkupAgrees |

`Authors.HighlightAuthors` and `Authors.HighlightName` model the code as written.
The publication and book-chapter lines use `Authors.HighlightAuthorsIntended`, which
marks the name pattern's matches with the position branch's tag.

## Left out

- Publications.HighlightedAuthors: uses the corrected author markup of the Findings row, so
  for a row without a usable author position the publication and book-chapter lines
  differ from the code's output by the backslashes of the name pattern's tag.
- Loading the workbook with openpyxl, reading and writing `index.html`, `main`, and the
  default paths (lines 7-16, 575-577, 671, 674 on): the workbook arrives as values and the
  page as a string.
- `str(cell)` of non-text cell values: cells are modelled as `Option<string>`, already text.
- Unicode: `strip`, `lower`, `\s` and `splitlines` are modelled on six ASCII whitespace
  characters: space, tab, line feed, carriage return, vertical tab and form feed. The
  separators `\x1c`-`\x1f` and non-ASCII whitespace are not modelled, and lines split only
  at `\n`. `re.IGNORECASE` folds only ASCII letters. `\d` in the leading-index pattern of
  `strip_leading_index` matches only `0`-`9`, so a title opening with a non-ASCII decimal
  digit (a full-width `１`, say) keeps its index in the model.
- The tag name is matched literally in the tag patterns, not as a regular expression;
  every caller passes `ul`, `ol` or `h5`.
- HtmlPatcher.OpeningComplete: proved only for tag names that do not start with
  whitespace. Tags with leading whitespace are never passed.
- HtmlPatcher.ClosingComplete: has the same restriction as `OpeningComplete`.
- HtmlPatcher.TextInnerKeepsIndent: proved only for text that starts with a non-space
  character.
- The replacement templates of the header substitutions (lines 647-657) are taken
  literally. Python would also expand backslash escapes in the inserted values, and would
  misread `\1` followed by a digit. Workbook.SubFirstSpec states the literal behaviour.
- The header `.*?` groups are modelled as "up to the first suffix on the same line", which
  is what a lazy match without DOTALL finds. The prefix is matched literally.
- `title_lines` (lines 638-642) is computed but never used, so it is not modelled.
- `is_hospital_related` (lines 315-321) and `build_simple_list` (lines 332-341) are never
  called, so they are not modelled.
- `highlight_name_globally` (line 76-77) is a hand-written scanner for
  `\b(Yuchen\s+Li|Y\.?\s*Li)\b` with ASCII word characters. It is not a general regular
  expression engine.
- `int()` in `highlight_authors` accepts an optional sign and ASCII digits. Underscores and
  non-ASCII digits are not modelled.
