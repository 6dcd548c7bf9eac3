/**
  List formatters: the news, patent, award and correspondence sections, each
  a list of `<li>` items interleaved with `<br>` items and joined by newlines,
  and the single text block of the research-interests section.
*/
module ListFormatters {
  import opened Wrappers
  import opened Strings
  import opened Records
  import opened FieldResolver
  import opened Publications

  // ---------------------------------------------------------------------------
  // strip_leading_index: `re.sub(r"^\s*\d+\s*([,\.)、]\s*)?", "", text)`

  /** The marks the pattern accepts after the number: `[,\.)、]`. */
  predicate IsIndexMark(c: char) {
    c == ',' || c == '.' || c == ')' || c == '、'
  }

  /** The end of the run of digits that starts at `k`. */
  function DigitsFrom(s: string, k: nat): (e: nat)
    requires k <= |s|
    ensures k <= e <= |s| && (e < |s| ==> !IsDigit(s[e]))
    ensures forall i :: k <= i < e ==> IsDigit(s[i])
    decreases |s| - k
  {
    if k == |s| || !IsDigit(s[k]) then k else DigitsFrom(s, k + 1)
  }

  /**
    Where the match of the index pattern at the start of `s` ends, if there is
    one: the spaces, the digits, the spaces, and a mark with its spaces when a
    mark follows.
  */
  function IndexEnd(s: string): (o: Option<nat>)
    ensures o.Some? ==> 0 < o.value <= |s|
  {
    var a := SpacesFrom(s, 0);
    if a == |s| || !IsDigit(s[a]) then None
    else
      var c := SpacesFrom(s, DigitsFrom(s, a));
      if c < |s| && IsIndexMark(s[c]) then Some(SpacesFrom(s, c + 1)) else Some(c)
  }

  /** `strip_leading_index(text)` */
  function StripLeadingIndex(s: string): string {
    match IndexEnd(s)
    case Some(e) => s[e..]
    case None => s
  }

  /**
    `s[..e]` is what the pattern matches: spaces `s[..a]`, digits `s[a..b]` (at
    least one), spaces `s[b..c]`, then nothing or one mark and spaces up to `e`.
  */
  predicate IndexShape(s: string, a: nat, b: nat, c: nat, e: nat)
    requires a < b <= c <= e <= |s|
  {
    && (forall i :: 0 <= i < a ==> IsSpace(s[i]))
    && (forall i :: a <= i < b ==> IsDigit(s[i]))
    && (forall i :: b <= i < c ==> IsSpace(s[i]))
    && (c == e || (IsIndexMark(s[c]) && forall i :: c < i < e ==> IsSpace(s[i])))
  }

  /** What is removed is a match of the pattern, with the scanner's runs. */
  lemma IndexEndSound(s: string)
    requires IndexEnd(s).Some?
    ensures var a := SpacesFrom(s, 0); var b := DigitsFrom(s, a); var c := SpacesFrom(s, b);
      a < b <= c <= IndexEnd(s).value && IndexShape(s, a, b, c, IndexEnd(s).value)
  {
  }

  /** Any match of the pattern ends no later than the scanner's: its runs are all greedy. */
  lemma IndexEndLongest(s: string, a: nat, b: nat, c: nat, e: nat)
    requires IndexEnd(s).Some?
    requires a < b <= c <= e <= |s| && IndexShape(s, a, b, c, e)
    ensures e <= IndexEnd(s).value
  {
    var a0 := SpacesFrom(s, 0);
    assert IsDigit(s[a]) && !IsSpace(s[a0]);
    assert a == a0;
    var b0 := DigitsFrom(s, a0);
    assert b0 < |s| ==> !IsDigit(s[b0]);
    assert b <= b0;
    var c0 := SpacesFrom(s, b0);
    if b < b0 {
      assert IsDigit(s[b]);
    } else {
      assert c0 < |s| ==> !IsSpace(s[c0]);
      assert c <= c0;
      if c < e {
        assert IsIndexMark(s[c]);
        assert c == c0;
        var e0 := SpacesFrom(s, c0 + 1);
        assert e0 < |s| ==> !IsSpace(s[e0]);
      }
    }
  }

  /**
    The text is returned unchanged exactly when its first character that is
    not a space is not a digit (or it has none).
  */
  lemma StripLeadingIndexUnchanged(s: string)
    ensures var a := SpacesFrom(s, 0);
      StripLeadingIndex(s) == s <==> (a == |s| || !IsDigit(s[a]))
  {
    if IndexEnd(s).Some? {
      assert |s[IndexEnd(s).value..]| < |s|;
    }
  }

  /**
    When a match is removed, the rest is the text after the longest prefix
    matching the pattern, and it does not start with a space.
  */
  lemma StripLeadingIndexRemoves(s: string)
    requires IndexEnd(s).Some?
    ensures var e := IndexEnd(s).value;
      && StripLeadingIndex(s) == s[e..]
      && (exists a: nat, b: nat, c: nat :: a < b <= c <= e && IndexShape(s, a, b, c, e))
      && (forall a: nat, b: nat, c: nat, e': nat :: a < b <= c <= e' <= |s| && IndexShape(s, a, b, c, e') ==> e' <= e)
      && (e == |s| || !IsSpace(s[e]))
  {
    IndexEndSound(s);
    forall a: nat, b: nat, c: nat, e': nat | a < b <= c <= e' <= |s| && IndexShape(s, a, b, c, e') ensures e' <= IndexEnd(s).value {
      IndexEndLongest(s, a, b, c, e');
    }
  }

  lemma StripLeadingIndexNumbered()
    ensures StripLeadingIndex("1. Deep learning") == "Deep learning"
  {
    var s := "1. Deep learning";
    assert SpacesFrom(s, 0) == 0 && DigitsFrom(s, 0) == 1 && SpacesFrom(s, 1) == 1;
    assert SpacesFrom(s, 2) == 3;
  }

  lemma StripLeadingIndexParenthesis()
    ensures StripLeadingIndex(" 12) Patent") == "Patent"
  {
    var s := " 12) Patent";
    assert SpacesFrom(s, 0) == 1 && DigitsFrom(s, 1) == 3 && SpacesFrom(s, 3) == 3;
    assert SpacesFrom(s, 4) == 5;
  }

  lemma StripLeadingIndexNoNumber()
    ensures StripLeadingIndex("Award 2") == "Award 2"
  {
    assert SpacesFrom("Award 2", 0) == 0;
  }

  // ---------------------------------------------------------------------------
  // Visibility, shared by patents and awards

  const VisibleCols: seq<string> := ["visible", "visable", "展示"]

  /** The flag values that keep a row. */
  const ShownFlags: set<string> := {"1", "true", "True", "是", "yes", "Yes"}

  /**
    A row is hidden when it has a visibility column whose stripped value is
    set and is not one of the flags that mean "shown".
  */
  predicate Hidden(r: Record) {
    var v := ResolvedIfKey(r, VisibleCols);
    v != "" && v !in ShownFlags
  }

  /** `find_col(r, cands) or ""` */
  function KeyOf(r: Record, cands: seq<string>): string {
    FindCol(r, cands).GetOr("")
  }

  /** The visibility test at the top of the patent and award loops. */
  method IsHidden(r: Record) returns (hidden: bool)
    ensures hidden == Hidden(r)
  {
    var visibleKey := KeyOf(r, VisibleCols);
    hidden := false;
    if visibleKey != "" {
      var visRaw := Strip(Get(r, visibleKey));
      hidden := visRaw != "" && visRaw !in ShownFlags;
    }
  }

  /** A row without a visibility column, or with an empty flag, is shown. */
  lemma NotHidden(r: Record)
    ensures (forall j :: 0 <= j < |r| ==> !SomeCandidateIn(Lower(r[j].key), VisibleCols)) ==> !Hidden(r)
    ensures ResolvedIfKey(r, VisibleCols) == "" ==> !Hidden(r)
  {
    FindColNone(r, VisibleCols);
  }

  // ---------------------------------------------------------------------------
  // The `items` list

  /** The `items` list after the loop over `rows`: each row's items, in order. */
  function Flatten(rowItems: Record -> seq<string>, rows: seq<Record>): seq<string> {
    if |rows| == 0 then [] else Flatten(rowItems, rows[..|rows| - 1]) + rowItems(rows[|rows| - 1])
  }

  lemma FlattenPrefix(rowItems: Record -> seq<string>, rows: seq<Record>, k: nat)
    requires k < |rows|
    ensures Flatten(rowItems, rows[..k + 1]) == Flatten(rowItems, rows[..k]) + rowItems(rows[k])
  {
    assert rows[..k + 1][..k] == rows[..k];
  }

  /** The rows `keep` accepts, in order. */
  function Filter(keep: Record -> bool, rows: seq<Record>): (kept: seq<Record>)
    ensures |kept| <= |rows|
  {
    if |rows| == 0 then []
    else if keep(rows[|rows| - 1]) then Filter(keep, rows[..|rows| - 1]) + [rows[|rows| - 1]]
    else Filter(keep, rows[..|rows| - 1])
  }

  lemma {:induction false} FlattenSnoc(rowItems: Record -> seq<string>, rows: seq<Record>, r: Record)
    ensures Flatten(rowItems, rows + [r]) == Flatten(rowItems, rows) + rowItems(r)
  {
    assert (rows + [r])[..|rows|] == rows;
  }

  /** Rows that add no item can be dropped beforehand without changing the list. */
  lemma {:induction false} FlattenDropSilent(rowItems: Record -> seq<string>, keep: Record -> bool, rows: seq<Record>)
    requires forall r :: !keep(r) ==> rowItems(r) == []
    ensures Flatten(rowItems, rows) == Flatten(rowItems, Filter(keep, rows))
  {
    if |rows| > 0 {
      var front, last := rows[..|rows| - 1], rows[|rows| - 1];
      FlattenDropSilent(rowItems, keep, front);
      if keep(last) {
        FlattenSnoc(rowItems, Filter(keep, front), last);
      }
    }
  }

  /** When every row adds an item and a `<br>`, item `2i` is row `i`'s and item `2i + 1` is `<br>`. */
  lemma {:induction false} FlattenPairsAt(line: Record -> string, rowItems: Record -> seq<string>, rows: seq<Record>, i: nat)
    requires forall r :: rowItems(r) == [line(r), "<br>"]
    requires i < |rows|
    ensures |Flatten(rowItems, rows)| == 2 * |rows|
    ensures Flatten(rowItems, rows)[2 * i] == line(rows[i]) && Flatten(rowItems, rows)[2 * i + 1] == "<br>"
  {
    var front := rows[..|rows| - 1];
    if i < |rows| - 1 {
      FlattenPairsAt(line, rowItems, front, i);
    } else if |front| > 0 {
      FlattenPairsAt(line, rowItems, front, 0);
    }
  }

  /** `"\n".join(items)` for a section. */
  function Lines(items: seq<string>): string {
    Join(items, "\n")
  }

  // ---------------------------------------------------------------------------
  // build_news_items

  const DateCols: seq<string> := ["date", "日期", "时间"]
  const NewsTextCols: seq<string> := ["text", "content", "描述", "description", "desc", "内容", "news"]

  /** `find_col(r, text columns) or next(iter(r.keys()), None)`, with None as "". */
  function NewsTextKey(r: Record): string {
    match FindCol(r, NewsTextCols)
    case Some(k) => if k != "" then k else if |r| > 0 then r[0].key else ""
    case None => if |r| > 0 then r[0].key else ""
  }

  /** The news text: the text column, or else every non-empty value joined by ", ". */
  function NewsText(r: Record): string {
    var key := NewsTextKey(r);
    var t := if key != "" then Strip(Get(r, key)) else "";
    if t == "" then Join(NonEmpty(Values(r)), ", ") else t
  }

  /** The item for a date (possibly empty) and a text. */
  function NewsLineOf(date: string, text: string): string {
    if date != "" then "<li><i>" + date + "</i> : " + text + "</li>"
    else "<li>" + text + "</li>"
  }

  /** The item of one news row. */
  function NewsLine(r: Record): string {
    NewsLineOf(ResolvedIfKey(r, DateCols), NewsText(r))
  }

  function NewsRowItems(r: Record): seq<string> {
    [NewsLine(r), "<br>"]
  }

  /** What `build_news_items(rows)` returns. */
  function NewsItems(rows: seq<Record>): string {
    Lines(Flatten(NewsRowItems, rows))
  }

  /** One news row: resolve the date and the text, then write the item. */
  method NewsRow(r: Record) returns (line: string)
    ensures line == NewsLine(r)
  {
    var dateVal := ResolvedIfKey(r, DateCols);
    var textKey := NewsTextKey(r);
    var textVal := if textKey != "" then Strip(Get(r, textKey)) else "";
    if textVal == "" {
      textVal := Join(NonEmpty(Values(r)), ", ");
    }
    if dateVal != "" {
      line := "<li><i>" + dateVal + "</i> : " + textVal + "</li>";
    } else {
      line := "<li>" + textVal + "</li>";
    }
  }

  /** `build_news_items`: one item and one `<br>` per row. */
  method BuildNewsItems(rows: seq<Record>) returns (html: string)
    ensures html == NewsItems(rows)
  {
    var items: seq<string> := [];
    for k := 0 to |rows|
      invariant items == Flatten(NewsRowItems, rows[..k])
    {
      FlattenPrefix(NewsRowItems, rows, k);
      var line := NewsRow(rows[k]);
      items := items + [line, "<br>"];
    }
    assert rows[..|rows|] == rows;
    html := Lines(items);
  }

  /** Every news row gives its item then a `<br>`, in row order. */
  lemma NewsItemsAt(rows: seq<Record>, i: nat)
    requires i < |rows|
    ensures var items := Flatten(NewsRowItems, rows);
      |items| == 2 * |rows| && items[2 * i] == NewsLine(rows[i]) && items[2 * i + 1] == "<br>"
  {
    FlattenPairsAt(NewsLine, NewsRowItems, rows, i);
  }

  /** `r.get(k, "")` is "" or one of the record's values. */
  lemma GetIsValue(r: Record, k: string)
    ensures Get(r, k) == "" || Get(r, k) in Values(r)
  {
    match IndexOf(r, k)
    case Some(i) =>
      assert Values(r)[i] == r[i].value;
    case None =>
  }

  /** The news text is empty exactly when every value of the row is empty. */
  lemma NewsTextEmpty(r: Record)
    ensures NewsText(r) == "" <==> forall v :: v in Values(r) ==> v == ""
  {
    JoinNonEmptyEmpty(Values(r), ", ");
    var key := NewsTextKey(r);
    if key != "" {
      GetIsValue(r, key);
      if Strip(Get(r, key)) != "" {
        assert Get(r, key) != "";
      }
    }
  }

  /**
    An item is `<li>`, the italic date and " : " when there is a date, the
    text, and `</li>`.
  */
  lemma NewsLineShape(date: string, text: string)
    ensures var line, lead := NewsLineOf(date, text), if date != "" then |date| + 10 else 0;
      && |line| == 9 + lead + |text|
      && line[..4] == "<li>"
      && (date != "" ==> line[4..4 + lead] == "<i>" + date + "</i> : ")
      && line[4 + lead..|line| - 5] == text
      && line[|line| - 5..] == "</li>"
  {
    var line := NewsLineOf(date, text);
    if date != "" {
      var lead := "<i>" + date + "</i> : ";
      assert line == "<li>" + lead + text + "</li>";
    } else {
      assert line == "<li>" + text + "</li>";
    }
  }

  // ---------------------------------------------------------------------------
  // The values of a record outside the control columns

  /** `[v for k, v in r.items() if v and k.lower() not in skip]` */
  function KeptValues(r: Record, skip: set<string>): seq<string> {
    if |r| == 0 then []
    else
      var f := r[|r| - 1];
      KeptValues(r[..|r| - 1], skip) + (if f.value != "" && Lower(f.key) !in skip then [f.value] else [])
  }

  lemma KeptValuesPrefix(r: Record, skip: set<string>, j: nat)
    requires j < |r|
    ensures KeptValues(r[..j + 1], skip) ==
        KeptValues(r[..j], skip) + (if r[j].value != "" && Lower(r[j].key) !in skip then [r[j].value] else [])
  {
    assert r[..j + 1][..j] == r[..j];
  }

  /** A kept value is a non-empty value of a column outside `skip`, and every such value is kept. */
  lemma {:induction false} KeptValuesMembers(r: Record, skip: set<string>, v: string)
    ensures v in KeptValues(r, skip) <==>
      exists j :: 0 <= j < |r| && r[j].value == v && v != "" && Lower(r[j].key) !in skip
  {
    if |r| > 0 {
      var front := r[..|r| - 1];
      KeptValuesMembers(front, skip, v);
      assert forall j :: 0 <= j < |front| ==> front[j] == r[j];
    }
  }

  /** The earlier parts followed by every kept value of the record, in field order. */
  method CollectKept(r: Record, skip: set<string>, init: seq<string>) returns (parts: seq<string>)
    ensures parts == init + KeptValues(r, skip)
  {
    parts := init;
    for j := 0 to |r|
      invariant parts == init + KeptValues(r[..j], skip)
    {
      KeptValuesPrefix(r, skip, j);
      var f := r[j];
      if f.value != "" && Lower(f.key) !in skip {
        parts := parts + [f.value];
      }
    }
    assert r[..|r|] == r;
  }


  // ---------------------------------------------------------------------------
  // build_patent_items

  const IndexCols: seq<string> := ["index", "序号"]
  const StateCols: seq<string> := ["state", "状态"]
  const PatentTitleCols: seq<string> := ["title", "题目", "patent_title"]

  /** The columns a patent row never lists among its other fields. */
  function PatentSkip(r: Record): set<string> {
    {"", Lower(KeyOf(r, IndexCols)), Lower(KeyOf(r, StateCols)), Lower(KeyOf(r, VisibleCols)),
     "note", "备注", "author_order", "作者序", "作者次序", "次序",
     Lower(KeyOf(r, PatentTitleCols)), Lower(KeyOf(r, AuthorCols))}
  }

  /** The title without its leading number, then the other fields. */
  function PatentParts(r: Record): seq<string> {
    var title := ResolvedIfKey(r, PatentTitleCols);
    (if title != "" then [StripLeadingIndex(title)] else []) + KeptValues(r, PatentSkip(r))
  }

  function BlueState(state: string): string {
    " <font class=\"blue\"><b>(" + state + ")</b></font>"
  }

  function RedState(state: string): string {
    " <font class=\"red\"><b>(" + state + ")</b></font>"
  }

  /** The state in parentheses: blue for 公开 (checked first), red for 授权, blue otherwise. */
  function StateHtml(state: string): string {
    if state == "" then ""
    else if Contains(state, "公开") then BlueState(state)
    else if Contains(state, "授权") then RedState(state)
    else BlueState(state)
  }

  /** The items for a patent's parts and state: none when the parts join to nothing. */
  function PatentItemsOf(parts: seq<string>, state: string): seq<string> {
    var text := Join(parts, ", ");
    if text != "" then ["<li>" + text + StateHtml(state) + "</li>", "<br>"] else []
  }

  /** The items of one patent row: none for a hidden row. */
  function PatentRowItems(r: Record): seq<string> {
    if Hidden(r) then [] else PatentItemsOf(PatentParts(r), ResolvedIfKey(r, StateCols))
  }

  /** What `build_patent_items(rows)` returns. */
  function PatentItems(rows: seq<Record>): string {
    Lines(Flatten(PatentRowItems, rows))
  }

  /** One patent row, as the loop body of `build_patent_items` computes it. */
  method PatentRow(r: Record) returns (rowItems: seq<string>)
    ensures rowItems == PatentRowItems(r)
  {
    var hidden := IsHidden(r);
    if hidden {
      return [];
    }
    var parts := CollectPatentParts(r);
    var stateVal := ResolvedIfKey(r, StateCols);
    rowItems := PatentFinish(parts, stateVal);
  }

  /** The title, without its leading number, and then the other non-empty fields. */
  method CollectPatentParts(r: Record) returns (parts: seq<string>)
    ensures parts == PatentParts(r)
  {
    var titleVal := ResolvedIfKey(r, PatentTitleCols);
    parts := [];
    if titleVal != "" {
      parts := parts + [StripLeadingIndex(titleVal)];
    }
    parts := CollectKept(r, PatentSkip(r), parts);
  }

  /** The text, the coloured state and the item of a patent row. */
  method PatentFinish(parts: seq<string>, stateVal: string) returns (rowItems: seq<string>)
    ensures rowItems == PatentItemsOf(parts, stateVal)
  {
    var text := Join(parts, ", ");
    var stateHtml := "";
    if stateVal != "" {
      if Contains(stateVal, "公开") {
        stateHtml := BlueState(stateVal);
      } else if Contains(stateVal, "授权") {
        stateHtml := RedState(stateVal);
      } else {
        stateHtml := BlueState(stateVal);
      }
    }
    if text != "" {
      rowItems := ["<li>" + text + stateHtml + "</li>", "<br>"];
    } else {
      rowItems := [];
    }
  }

  /** `build_patent_items` */
  method BuildPatentItems(rows: seq<Record>) returns (html: string)
    ensures html == PatentItems(rows)
  {
    var items: seq<string> := [];
    for k := 0 to |rows|
      invariant items == Flatten(PatentRowItems, rows[..k])
    {
      FlattenPrefix(PatentRowItems, rows, k);
      var more := PatentRow(rows[k]);
      items := items + more;
    }
    assert rows[..|rows|] == rows;
    html := Lines(items);
  }

  /** Red exactly for a state with 授权 and without 公开; blue for every other non-empty state. */
  lemma StateColours(state: string)
    ensures StateHtml(state) == RedState(state) <==>
      state != "" && !Contains(state, "公开") && Contains(state, "授权")
    ensures StateHtml(state) == BlueState(state) <==>
      state != "" && (Contains(state, "公开") || !Contains(state, "授权"))
    ensures StateHtml(state) == "" <==> state == ""
  {
    assert BlueState(state)[14] == 'b' && RedState(state)[14] == 'r';
  }

  /** Hidden patent rows contribute nothing: the list is that of the shown rows. */
  lemma PatentHiddenDropped(rows: seq<Record>)
    ensures PatentItems(rows) == PatentItems(Filter(r => !Hidden(r), rows))
  {
    FlattenDropSilent(PatentRowItems, r => !Hidden(r), rows);
  }

  /** A non-empty title comes first, without its leading number. */
  lemma PatentTitleFirst(r: Record)
    requires ResolvedIfKey(r, PatentTitleCols) != ""
    ensures PatentParts(r)[0] == StripLeadingIndex(ResolvedIfKey(r, PatentTitleCols))
  {
  }

  /**
    Besides the title, a patent lists exactly the non-empty values of the
    columns outside the control set (index, state, visibility, note, author
    order, title and authors).
  */
  lemma PatentOtherFields(r: Record, v: string)
    ensures v in KeptValues(r, PatentSkip(r)) <==>
      exists j :: 0 <= j < |r| && r[j].value == v && v != "" && Lower(r[j].key) !in PatentSkip(r)
    ensures "note" in PatentSkip(r) && "" in PatentSkip(r)
  {
    KeptValuesMembers(r, PatentSkip(r), v);
  }

  /** A patent with text gives its item, ending in the state, then a `<br>`; one without gives nothing. */
  lemma PatentItemsShape(parts: seq<string>, state: string)
    ensures var items, text := PatentItemsOf(parts, state), Join(parts, ", ");
      && (text == "" <==> items == [])
      && (text != "" ==> items == ["<li>" + text + StateHtml(state) + "</li>", "<br>"])
  {
  }

  // ---------------------------------------------------------------------------
  // build_award_items

  /** The columns an award row leaves out of its text. */
  function AwardSkip(r: Record): set<string> {
    {"", Lower(KeyOf(r, IndexCols)), Lower(KeyOf(r, VisibleCols)), Lower(KeyOf(r, NoteCols))}
  }

  /** The award text: the fields joined, their leading number removed, the time (else the year) in front. */
  function AwardTextOf(kept: seq<string>, time: string, year: string): string {
    var body := StripLeadingIndex(Join(kept, ", "));
    var when := if time != "" then time else year;
    if when != "" then when + ", " + body else body
  }

  function AwardNoteHtml(note: string): string {
    if note != "" then " <font class=\"red\">(" + note + ")</font>" else ""
  }

  /** The items of an award with text `text`: none when the text is empty. */
  function AwardItemsFor(text: string, note: string): seq<string> {
    if text != "" then ["<li>" + text + AwardNoteHtml(note) + "</li>", "<br>"] else []
  }

  function AwardItemsOf(kept: seq<string>, note: string, time: string, year: string): seq<string> {
    AwardItemsFor(AwardTextOf(kept, time, year), note)
  }

  /** The items of one award row: none for a hidden row. */
  function AwardRowItems(r: Record): seq<string> {
    if Hidden(r) then []
    else AwardItemsOf(KeptValues(r, AwardSkip(r)), ResolvedIfKey(r, NoteCols),
      ResolvedIfKey(r, TimeCols), ResolvedIfKey(r, YearCols))
  }

  /** What `build_award_items(rows)` returns. */
  function AwardItems(rows: seq<Record>): string {
    Lines(Flatten(AwardRowItems, rows))
  }

  /** One award row, as the loop body of `build_award_items` computes it. */
  method AwardRow(r: Record) returns (rowItems: seq<string>)
    ensures rowItems == AwardRowItems(r)
  {
    var hidden := IsHidden(r);
    if hidden {
      return [];
    }
    var none: seq<string> := [];
    var parts := CollectKept(r, AwardSkip(r), none);
    assert parts == KeptValues(r, AwardSkip(r));
    var noteVal := ResolvedIfKey(r, NoteCols);
    var timeVal := ResolvedIfKey(r, TimeCols);
    var yearVal := ResolvedIfKey(r, YearCols);
    rowItems := AwardFinish(parts, noteVal, timeVal, yearVal);
  }

  /** The text, the note and the item of an award row. */
  method AwardFinish(parts: seq<string>, noteVal: string, timeVal: string, yearVal: string) returns (rowItems: seq<string>)
    ensures rowItems == AwardItemsOf(parts, noteVal, timeVal, yearVal)
  {
    var text := Join(parts, ", ");
    text := StripLeadingIndex(text);
    var noteHtml := if noteVal != "" then " <font class=\"red\">(" + noteVal + ")</font>" else "";
    var prefixVal := if timeVal != "" then timeVal else yearVal;
    if prefixVal != "" {
      text := prefixVal + ", " + text;
    }
    if text != "" {
      rowItems := ["<li>" + text + noteHtml + "</li>", "<br>"];
    } else {
      rowItems := [];
    }
  }

  /** `build_award_items` */
  method BuildAwardItems(rows: seq<Record>) returns (html: string)
    ensures html == AwardItems(rows)
  {
    var items: seq<string> := [];
    for k := 0 to |rows|
      invariant items == Flatten(AwardRowItems, rows[..k])
    {
      FlattenPrefix(AwardRowItems, rows, k);
      var more := AwardRow(rows[k]);
      items := items + more;
    }
    assert rows[..|rows|] == rows;
    html := Lines(items);
  }

  /** Hidden award rows contribute nothing. */
  lemma AwardHiddenDropped(rows: seq<Record>)
    ensures AwardItems(rows) == AwardItems(Filter(r => !Hidden(r), rows))
  {
    FlattenDropSilent(AwardRowItems, r => !Hidden(r), rows);
  }

  /** The time, else the year, leads the text, followed by ", "; with neither, the text is the body alone. */
  lemma AwardWhenFirst(kept: seq<string>, time: string, year: string)
    ensures var text, body := AwardTextOf(kept, time, year), StripLeadingIndex(Join(kept, ", "));
      && (time != "" ==> text == time + ", " + body && text[..|time| + 2] == time + ", ")
      && (time == "" && year != "" ==> text == year + ", " + body && text[..|year| + 2] == year + ", ")
      && (time == "" && year == "" ==> text == body)
  {
    var body := StripLeadingIndex(Join(kept, ", "));
    assert (time + ", " + body)[..|time| + 2] == time + ", ";
    assert (year + ", " + body)[..|year| + 2] == year + ", ";
  }

  /** The note, when set, closes the item in red parentheses just before `</li>`. */
  lemma AwardItemsShape(text: string, note: string)
    ensures var items := AwardItemsFor(text, note);
      && (text == "" <==> items == [])
      && (text != "" && note != "" ==>
           items == ["<li>" + text + " <font class=\"red\">(" + note + ")</font>" + "</li>", "<br>"])
      && (text != "" && note == "" ==> items == ["<li>" + text + "</li>", "<br>"])
  {
    if text != "" && note != "" {
      var html := " <font class=\"red\">(" + note + ")</font>";
      assert "<li>" + text + html + "</li>" == "<li>" + text + " <font class=\"red\">(" + note + ")</font>" + "</li>";
    } else if text != "" {
      assert "<li>" + text + "" + "</li>" == "<li>" + text + "</li>";
    }
  }

  /** The award body lists exactly the non-empty values outside index, visibility and note. */
  lemma AwardOtherFields(r: Record, v: string)
    ensures v in KeptValues(r, AwardSkip(r)) <==>
      exists j :: 0 <= j < |r| && r[j].value == v && v != "" && Lower(r[j].key) !in AwardSkip(r)
  {
    KeptValuesMembers(r, AwardSkip(r), v);
  }

  // ---------------------------------------------------------------------------
  // build_correspondence

  const NameCols: seq<string> := ["name", "名称", "field"]
  const ContentCols: seq<string> := ["content", "内容", "value"]
  const EmailCols: seq<string> := ["email", "邮箱", "e-mail"]
  const OfficeCols: seq<string> := ["office", "办公室", "lab", "laboratory"]
  const AddressCols: seq<string> := ["address", "地址", "location"]
  const PhoneCols: seq<string> := ["phone", "电话", "tel"]
  const HomepageCols: seq<string> := ["homepage", "website", "个人主页"]

  /** `<li><i>caption</i> :&nbsp;&nbsp; value</li>` */
  function ContactLine(caption: string, value: string): string {
    "<li><i>" + caption + "</i> :&nbsp;&nbsp; " + value + "</li>"
  }

  /** One row of the name/content layout: an item when both cells are set. */
  function NameContentItems(r: Record, nameKey: string, contentKey: string): seq<string> {
    var name, content := Strip(Get(r, nameKey)), Strip(Get(r, contentKey));
    if name != "" && content != "" then [ContactLine(name, content), "<br>"] else []
  }

  /** `any(v for v in r.values())` */
  predicate Filled(r: Record) {
    exists j :: 0 <= j < |r| && r[j].value != ""
  }

  /** The position of the first row from `k` on that has a value. */
  function FirstFilledFrom(rows: seq<Record>, k: nat): (o: Option<nat>)
    requires k <= |rows|
    ensures o.Some? ==> k <= o.value < |rows| && Filled(rows[o.value])
    ensures o.Some? ==> forall j :: k <= j < o.value ==> !Filled(rows[j])
    ensures o.None? ==> forall j :: k <= j < |rows| ==> !Filled(rows[j])
    decreases |rows| - k
  {
    if k == |rows| then None
    else if Filled(rows[k]) then Some(k)
    else FirstFilledFrom(rows, k + 1)
  }

  /** `next((r for r in rows if any(v for v in r.values())), {})` */
  function FirstFilled(rows: seq<Record>): Record {
    match FirstFilledFrom(rows, 0)
    case Some(i) => rows[i]
    case None => []
  }

  /** The fields of the column layout. */
  datatype Contact = Contact(email: string, phone: string, office: string, address: string, homepage: string)

  function ContactOf(row: Record): Contact {
    Contact(Resolved(row, EmailCols), Resolved(row, PhoneCols), Resolved(row, OfficeCols),
      Resolved(row, AddressCols), Resolved(row, HomepageCols))
  }

  /** A field as a contact item followed by `<br>`, or nothing when it is empty. */
  function ContactField(caption: string, value: string): seq<string> {
    if value != "" then [ContactLine(caption, value), "<br>"] else []
  }

  function HomepageLink(url: string): string {
    "<a href='" + url + "' class=\"deepgrey\">" + url + "</a>"
  }

  /** The items of the column layout, in the order email, phone, office, address, homepage. */
  function ContactItems(c: Contact): seq<string> {
    ContactField("Email", c.email) + ContactField("Phone", c.phone)
      + ContactField("Office", c.office) + ContactField("Address", c.address)
      + (if c.homepage != "" then [ContactLine("Homepage", HomepageLink(c.homepage))] else [])
  }

  /** The two name/content columns of the first row, when both resolve to a set name. */
  function NameContentKeys(first: Record): Option<(string, string)> {
    var nk, ck := FindCol(first, NameCols), FindCol(first, ContentCols);
    if nk.Some? && nk.value != "" && ck.Some? && ck.value != "" then Some((nk.value, ck.value)) else None
  }

  /** What `build_correspondence(rows)` returns. */
  function Correspondence(rows: seq<Record>): string {
    if |rows| == 0 then ""
    else
      match NameContentKeys(rows[0])
      case Some(keys) => Lines(Flatten(r => NameContentItems(r, keys.0, keys.1), rows))
      case None => Lines(ContactItems(ContactOf(FirstFilled(rows))))
  }

  /** The search of `next(...)` for the first row with a value. */
  method FindFilled(rows: seq<Record>) returns (row: Record)
    ensures row == FirstFilled(rows)
  {
    var k := 0;
    while k < |rows| && !Filled(rows[k])
      invariant k <= |rows|
      invariant FirstFilledFrom(rows, k) == FirstFilledFrom(rows, 0)
    {
      k := k + 1;
    }
    if k == |rows| {
      row := [];
    } else {
      row := rows[k];
    }
  }

  /** The name/content loop of `build_correspondence`. */
  method NameContentList(rows: seq<Record>, nameKey: string, contentKey: string) returns (items: seq<string>)
    ensures items == Flatten(r => NameContentItems(r, nameKey, contentKey), rows)
  {
    items := [];
    for k := 0 to |rows|
      invariant items == Flatten(r => NameContentItems(r, nameKey, contentKey), rows[..k])
    {
      FlattenPrefix(r => NameContentItems(r, nameKey, contentKey), rows, k);
      var r := rows[k];
      var nameVal := Strip(Get(r, nameKey));
      var contentVal := Strip(Get(r, contentKey));
      if nameVal != "" && contentVal != "" {
        items := items + [ContactLine(nameVal, contentVal), "<br>"];
      }
    }
    assert rows[..|rows|] == rows;
  }

  /** The column lookups of the column layout. */
  method ResolveContact(row: Record) returns (c: Contact)
    ensures c == ContactOf(row)
  {
    var email := Resolved(row, EmailCols);
    var office := Resolved(row, OfficeCols);
    var address := Resolved(row, AddressCols);
    var phone := Resolved(row, PhoneCols);
    var homepage := Resolved(row, HomepageCols);
    c := Contact(email, phone, office, address, homepage);
  }

  /** The appends of the column layout: one item per set field. */
  method ContactList(c: Contact) returns (items: seq<string>)
    ensures items == ContactItems(c)
  {
    items := [];
    if c.email != "" {
      items := items + [ContactLine("Email", c.email), "<br>"];
    }
    assert items == ContactField("Email", c.email);
    if c.phone != "" {
      items := items + [ContactLine("Phone", c.phone), "<br>"];
    }
    assert items == ContactField("Email", c.email) + ContactField("Phone", c.phone);
    if c.office != "" {
      items := items + [ContactLine("Office", c.office), "<br>"];
    }
    assert items == ContactField("Email", c.email) + ContactField("Phone", c.phone)
      + ContactField("Office", c.office);
    if c.address != "" {
      items := items + [ContactLine("Address", c.address), "<br>"];
    }
    assert items == ContactField("Email", c.email) + ContactField("Phone", c.phone)
      + ContactField("Office", c.office) + ContactField("Address", c.address);
    if c.homepage != "" {
      items := items + [ContactLine("Homepage", HomepageLink(c.homepage))];
    }
  }

  /** `build_correspondence` */
  method BuildCorrespondence(rows: seq<Record>) returns (html: string)
    ensures html == Correspondence(rows)
  {
    if |rows| == 0 {
      return "";
    }
    var keys := NameContentKeys(rows[0]);
    var items: seq<string>;
    if keys.Some? {
      items := NameContentList(rows, keys.value.0, keys.value.1);
    } else {
      var row := FindFilled(rows);
      var c := ResolveContact(row);
      items := ContactList(c);
    }
    html := Lines(items);
  }

  /**
    Each set field but the homepage gives its item and a `<br>`; the homepage
    gives only its item, and it comes last.
  */
  lemma ContactItemsShape(c: Contact)
    ensures var items := ContactItems(c);
      && |items| == (if c.email != "" then 2 else 0) + (if c.phone != "" then 2 else 0)
           + (if c.office != "" then 2 else 0) + (if c.address != "" then 2 else 0)
           + (if c.homepage != "" then 1 else 0)
      && (c.homepage != "" ==> items[|items| - 1] == ContactLine("Homepage", HomepageLink(c.homepage)))
      && (c.homepage == "" && |items| > 0 ==> items[|items| - 1] == "<br>")
      && (c.email != "" ==> items[0] == ContactLine("Email", c.email))
  {
  }

  /** In the name/content layout, rows missing either cell contribute nothing. */
  lemma NameContentDropsIncomplete(rows: seq<Record>, nameKey: string, contentKey: string)
    ensures var keep := r => Strip(Get(r, nameKey)) != "" && Strip(Get(r, contentKey)) != "";
      Flatten(r => NameContentItems(r, nameKey, contentKey), rows)
        == Flatten(r => NameContentItems(r, nameKey, contentKey), Filter(keep, rows))
  {
    var keep := r => Strip(Get(r, nameKey)) != "" && Strip(Get(r, contentKey)) != "";
    FlattenDropSilent(r => NameContentItems(r, nameKey, contentKey), keep, rows);
  }

  /** In the name/content layout every complete row gives one item and a `<br>`. */
  lemma NameContentRowShape(r: Record, nameKey: string, contentKey: string)
    ensures var name, content := Strip(Get(r, nameKey)), Strip(Get(r, contentKey));
      && (name != "" && content != "" ==> NameContentItems(r, nameKey, contentKey) == [ContactLine(name, content), "<br>"])
      && (name == "" || content == "" <==> NameContentItems(r, nameKey, contentKey) == [])
  {
  }

  // ---------------------------------------------------------------------------
  // build_text_block

  /** The loop of `build_text_block` from row `k` on. */
  function TextBlockFrom(rows: seq<Record>, k: nat): string
    requires k <= |rows|
    decreases |rows| - k
  {
    if k == |rows| then ""
    else
      var vals := NonEmpty(Values(rows[k]));
      if |vals| > 0 then Join(vals, " ") else TextBlockFrom(rows, k + 1)
  }

  /** `build_text_block(rows)`: the non-empty values of the first row that has one, joined by spaces. */
  function TextBlock(rows: seq<Record>): string {
    TextBlockFrom(rows, 0)
  }

  /** A record has a non-empty value exactly when its filtered value list is non-empty. */
  lemma FilledNonEmpty(r: Record)
    ensures Filled(r) <==> |NonEmpty(Values(r))| > 0
  {
    var vs := Values(r);
    if Filled(r) {
      var j :| 0 <= j < |r| && r[j].value != "";
      assert vs[j] in vs;
    }
    if |NonEmpty(vs)| > 0 {
      assert NonEmpty(vs)[0] in vs;
    }
  }

  lemma {:induction false} TextBlockFromFilled(rows: seq<Record>, k: nat)
    requires k <= |rows|
    ensures TextBlockFrom(rows, k) ==
      match FirstFilledFrom(rows, k)
      case Some(i) => Join(NonEmpty(Values(rows[i])), " ")
      case None => ""
    decreases |rows| - k
  {
    if k < |rows| {
      FilledNonEmpty(rows[k]);
      if !Filled(rows[k]) {
        TextBlockFromFilled(rows, k + 1);
      }
    }
  }

  /** The text block is taken from the same row the correspondence column layout uses. */
  lemma TextBlockFirstFilled(rows: seq<Record>)
    ensures TextBlock(rows) == Join(NonEmpty(Values(FirstFilled(rows))), " ")
  {
    TextBlockFromFilled(rows, 0);
    assert Values([]) == [];
  }

  /** The text block is empty exactly when no row has a non-empty value. */
  lemma TextBlockEmpty(rows: seq<Record>)
    ensures TextBlock(rows) == "" <==> forall k :: 0 <= k < |rows| ==> !Filled(rows[k])
  {
    TextBlockFromFilled(rows, 0);
    match FirstFilledFrom(rows, 0)
    case Some(i) =>
      var row := rows[i];
      JoinNonEmptyEmpty(Values(row), " ");
      var j :| 0 <= j < |row| && row[j].value != "";
      assert Values(row)[j] in Values(row);
    case None =>
  }
}
