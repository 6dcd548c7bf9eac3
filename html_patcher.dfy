/**
  The two splicers that rewrite the page: after the anchor `<div id="X"></div>`
  they find the first opening tag and the closing tag after it, keep both
  tags, and put new contents between them, indented like the old contents.
*/
module HtmlPatcher {
  import opened Wrappers
  import opened Strings

  /** `f'<div id="{section_id}"></div>'` */
  function Anchor(id: string): string {
    "<div id=\"" + id + "\"></div>"
  }

  // ---------------------------------------------------------------------------
  // Tag scanners: `<\s*tag([^>]*)>` and `</\s*tag\s*>`, case-insensitively

  /** `tag` starts at `k`, letters compared without case. */
  predicate TagAt(s: string, tag: string, k: nat) {
    k + |tag| <= |s| && Lower(s[k..k + |tag|]) == Lower(tag)
  }

  /** The first `c` at or after `k`. */
  function CharFrom(s: string, c: char, k: nat): (o: Option<nat>)
    requires k <= |s|
    ensures o.Some? ==> k <= o.value < |s| && s[o.value] == c
    ensures o.Some? ==> forall p :: k <= p < o.value ==> s[p] != c
    ensures o.None? ==> forall p :: k <= p < |s| ==> s[p] != c
    decreases |s| - k
  {
    if k == |s| then None
    else if s[k] == c then Some(k)
    else CharFrom(s, c, k + 1)
  }

  datatype TagKind = Opening | Closing

  /** Where the match of the opening or the closing pattern at `i` ends, if it matches there. */
  function TagEndAt(s: string, kind: TagKind, tag: string, i: nat): (o: Option<nat>)
    requires i <= |s|
    ensures o.Some? ==> i < o.value <= |s|
  {
    if i == |s| || s[i] != '<' then None
    else if kind.Opening? then
      var w := SpacesFrom(s, i + 1);
      if !TagAt(s, tag, w) then None
      else
        match CharFrom(s, '>', w + |tag|)
        case Some(g) => Some(g + 1)
        case None => None
    else if i + 1 == |s| || s[i + 1] != '/' then None
    else
      var w := SpacesFrom(s, i + 2);
      if !TagAt(s, tag, w) then None
      else
        var g := SpacesFrom(s, w + |tag|);
        if g < |s| && s[g] == '>' then Some(g + 1) else None
  }

  /** `s[i..e]` reads `<`, whitespace up to `w`, the tag, anything but `>`, then `>`. */
  predicate OpeningShape(s: string, tag: string, i: nat, w: nat, e: nat) {
    i + 1 <= w && w + |tag| < e <= |s| && s[i] == '<'
    && (forall p :: i + 1 <= p < w ==> IsSpace(s[p]))
    && TagAt(s, tag, w)
    && (forall p :: w + |tag| <= p < e - 1 ==> s[p] != '>')
    && s[e - 1] == '>'
  }

  /** `s[i..e]` reads `</`, whitespace up to `w`, the tag, whitespace, then `>`. */
  predicate ClosingShape(s: string, tag: string, i: nat, w: nat, e: nat) {
    i + 2 <= w && w + |tag| < e <= |s| && s[i] == '<' && s[i + 1] == '/'
    && (forall p :: i + 2 <= p < w ==> IsSpace(s[p]))
    && TagAt(s, tag, w)
    && (forall p :: w + |tag| <= p < e - 1 ==> IsSpace(s[p]))
    && s[e - 1] == '>'
  }

  /** A tag name the pattern's `\s*` cannot eat into. */
  predicate SolidTag(tag: string) {
    tag == [] || !IsSpace(tag[0])
  }

  /** Every match the scanner reports has the shape of the pattern. */
  lemma TagEndAtSound(s: string, kind: TagKind, tag: string, i: nat)
    requires i <= |s| && TagEndAt(s, kind, tag, i).Some?
    ensures var e := TagEndAt(s, kind, tag, i).value;
      && (kind.Opening? ==> exists w: nat :: OpeningShape(s, tag, i, w, e))
      && (kind.Closing? ==> exists w: nat :: ClosingShape(s, tag, i, w, e))
  {
    var e := TagEndAt(s, kind, tag, i).value;
    if kind.Opening? {
      assert OpeningShape(s, tag, i, SpacesFrom(s, i + 1), e);
    } else {
      assert ClosingShape(s, tag, i, SpacesFrom(s, i + 2), e);
    }
  }

  /** A run of whitespace from `k` to `w`, then a character that is not whitespace: the run's end is `w`. */
  lemma {:induction false} SpacesFromIs(s: string, k: nat, w: nat)
    requires k <= w <= |s|
    requires forall p :: k <= p < w ==> IsSpace(s[p])
    requires w == |s| || !IsSpace(s[w])
    ensures SpacesFrom(s, k) == w
    decreases w - k
  {
    if k < w {
      SpacesFromIs(s, k + 1, w);
    }
  }

  /** A run of whitespace from `k` to `w` is covered by the scan from `k`. */
  lemma {:induction false} SpacesFromCovers(s: string, k: nat, w: nat)
    requires k <= w <= |s|
    requires forall p :: k <= p < w ==> IsSpace(s[p])
    ensures w <= SpacesFrom(s, k)
    decreases w - k
  {
    if k < w {
      SpacesFromCovers(s, k + 1, w);
    }
  }

  lemma {:induction false} CharFromIs(s: string, c: char, k: nat, g: nat)
    requires k <= g < |s| && s[g] == c
    requires forall p :: k <= p < g ==> s[p] != c
    ensures CharFrom(s, c, k) == Some(g)
    decreases g - k
  {
    if k < g {
      CharFromIs(s, c, k + 1, g);
    }
  }

  /** Where the tag sits, `s[w]` is not whitespace (unless the tag is empty). */
  lemma TagAtSolid(s: string, tag: string, w: nat)
    requires TagAt(s, tag, w) && SolidTag(tag) && |tag| > 0
    ensures !IsSpace(s[w])
  {
    assert Lower(s[w..w + |tag|])[0] == LowerChar(s[w]);
    assert Lower(tag)[0] == LowerChar(tag[0]);
  }

  /**
    Every text of the pattern's shape at `i` is the match the scanner reports:
    for a tag name that does not begin with whitespace the pattern has only one
    way to match at `i`.
  */
  lemma OpeningComplete(s: string, tag: string, i: nat, w: nat, e: nat)
    requires SolidTag(tag) && OpeningShape(s, tag, i, w, e)
    ensures TagEndAt(s, Opening, tag, i) == Some(e)
  {
    if |tag| > 0 {
      TagAtSolid(s, tag, w);
      SpacesFromIs(s, i + 1, w);
      CharFromIs(s, '>', w + |tag|, e - 1);
      OpeningEndAt(s, tag, i, w, e - 1);
    } else {
      SpacesFromCovers(s, i + 1, w);
      var w' := SpacesFrom(s, i + 1);
      assert w' <= e - 1;
      CharFromIs(s, '>', w', e - 1);
      OpeningEndAt(s, tag, i, w', e - 1);
    }
  }

  /** The opening scanner at `i`, once its whitespace scan ends at `w` and its `>` is found at `g`. */
  lemma OpeningEndAt(s: string, tag: string, i: nat, w: nat, g: nat)
    requires i + 1 <= |s| && s[i] == '<'
    requires SpacesFrom(s, i + 1) == w && TagAt(s, tag, w)
    requires CharFrom(s, '>', w + |tag|) == Some(g)
    ensures TagEndAt(s, Opening, tag, i) == Some(g + 1)
  {
  }

  /** The same for the closing pattern. */
  lemma ClosingComplete(s: string, tag: string, i: nat, w: nat, e: nat)
    requires SolidTag(tag) && ClosingShape(s, tag, i, w, e)
    ensures TagEndAt(s, Closing, tag, i) == Some(e)
  {
    if |tag| > 0 {
      TagAtSolid(s, tag, w);
      SpacesFromIs(s, i + 2, w);
      SpacesFromIs(s, w + |tag|, e - 1);
      ClosingEndAt(s, tag, i, w, e - 1);
    } else {
      SpacesFromIs(s, i + 2, e - 1);
      SpacesFromIs(s, e - 1, e - 1);
      ClosingEndAt(s, tag, i, e - 1, e - 1);
    }
  }

  /** The closing scanner at `i`, once its whitespace scans are known to end at `w` and at `g`. */
  lemma ClosingEndAt(s: string, tag: string, i: nat, w: nat, g: nat)
    requires i + 2 <= |s| && s[i] == '<' && s[i + 1] == '/'
    requires SpacesFrom(s, i + 2) == w && TagAt(s, tag, w)
    requires SpacesFrom(s, w + |tag|) == g && g < |s| && s[g] == '>'
    ensures TagEndAt(s, Closing, tag, i) == Some(g + 1)
  {
  }

  /** `s[start..end]` */
  datatype Span = Span(start: nat, end: nat)

  /** No match of the pattern begins at any position from `lo` up to (not including) `hi`. */
  predicate NoTagIn(s: string, kind: TagKind, tag: string, lo: nat, hi: nat) {
    forall j: nat :: lo <= j < hi && j <= |s| ==> TagEndAt(s, kind, tag, j).None?
  }

  /** `pattern.search(s, pos=k)`: the leftmost match at or after `k`. */
  function Search(s: string, kind: TagKind, tag: string, k: nat): (m: Option<Span>)
    requires k <= |s|
    ensures m.Some? ==> k <= m.value.start <= |s| && TagEndAt(s, kind, tag, m.value.start) == Some(m.value.end)
    ensures m.Some? ==> NoTagIn(s, kind, tag, k, m.value.start)
    ensures m.None? ==> NoTagIn(s, kind, tag, k, |s| + 1)
    decreases |s| - k
  {
    match TagEndAt(s, kind, tag, k)
    case Some(e) => Some(Span(k, e))
    case None => if k == |s| then None else Search(s, kind, tag, k + 1)
  }

  /** A match with none before it from `k` on is the one the search finds. */
  lemma {:induction false} SearchIs(s: string, kind: TagKind, tag: string, k: nat, m: Span)
    requires k <= m.start <= |s|
    requires TagEndAt(s, kind, tag, m.start) == Some(m.end)
    requires NoTagIn(s, kind, tag, k, m.start)
    ensures Search(s, kind, tag, k) == Some(m)
    decreases m.start - k
  {
    if k < m.start {
      assert TagEndAt(s, kind, tag, k).None?;
      assert NoTagIn(s, kind, tag, k + 1, m.start);
      SearchIs(s, kind, tag, k + 1, m);
    }
  }

  // ---------------------------------------------------------------------------
  // The site of a patch

  /** The anchor, the opening tag after it and the closing tag after that. */
  datatype Site = Site(anchor: nat, open: Span, close: Span)

  /**
    `site` is what the source finds: the first anchor, the first opening tag
    at or after the anchor's start, and the first closing tag at or after the
    end of that opening tag.
  */
  predicate Located(html: string, id: string, tag: string, site: Site) {
    && Find(html, Anchor(id)) == Some(site.anchor)
    && site.anchor <= site.open.start <= site.open.end <= site.close.start <= |html|
    && TagEndAt(html, Opening, tag, site.open.start) == Some(site.open.end)
    && NoTagIn(html, Opening, tag, site.anchor, site.open.start)
    && TagEndAt(html, Closing, tag, site.close.start) == Some(site.close.end)
    && NoTagIn(html, Closing, tag, site.open.end, site.close.start)
  }

  function Locate(html: string, id: string, tag: string): (o: Option<Site>)
    ensures o.Some? ==> Located(html, id, tag, o.value)
  {
    match Find(html, Anchor(id))
    case None => None
    case Some(a) =>
      match Search(html, Opening, tag, a)
      case None => None
      case Some(op) =>
        match Search(html, Closing, tag, op.end)
        case None => None
        case Some(cl) => Some(Site(a, op, cl))
  }

  /** The sites the source finds are the ones the model finds, and there is at most one. */
  lemma LocatedUnique(html: string, id: string, tag: string, site: Site)
    requires Located(html, id, tag, site)
    ensures Locate(html, id, tag) == Some(site)
  {
    SearchIs(html, Opening, tag, site.anchor, site.open);
    SearchIs(html, Closing, tag, site.open.end, site.close);
  }

  // ---------------------------------------------------------------------------
  // Indentation: `re.search(r"\n([ \t]+)\S", inner)`, else twelve spaces

  predicate IsBlank(c: char) {
    c == ' ' || c == '\t'
  }

  /** The end of the run of blanks (`[ \t]*`) from `k`. */
  function BlanksFrom(s: string, k: nat): (e: nat)
    requires k <= |s|
    ensures k <= e <= |s| && (e < |s| ==> !IsBlank(s[e]))
    ensures forall p :: k <= p < e ==> IsBlank(s[p])
    decreases |s| - k
  {
    if k == |s| || !IsBlank(s[k]) then k else BlanksFrom(s, k + 1)
  }

  /**
    The end of the captured blanks when the pattern matches at `i`: a line
    feed, at least one blank, and then a character that is not whitespace.
  */
  function IndentEndAt(s: string, i: nat): (o: Option<nat>)
    requires i <= |s|
    ensures o.Some? ==> i + 1 < o.value < |s| && s[i] == '\n' && IsBlank(s[i + 1])
  {
    if i < |s| && s[i] == '\n' then
      var e := BlanksFrom(s, i + 1);
      if i + 1 < e < |s| && !IsSpace(s[e]) then Some(e) else None
    else None
  }

  /** The leftmost match of the indentation pattern at or after `k`. */
  function IndentFrom(s: string, k: nat): (m: Option<Span>)
    requires k <= |s|
    ensures m.Some? ==> k <= m.value.start <= |s| && IndentEndAt(s, m.value.start) == Some(m.value.end)
    ensures m.Some? ==> forall j :: k <= j < m.value.start ==> IndentEndAt(s, j).None?
    ensures m.None? ==> forall j :: k <= j <= |s| ==> IndentEndAt(s, j).None?
    decreases |s| - k
  {
    match IndentEndAt(s, k)
    case Some(e) => Some(Span(k, e))
    case None => if k == |s| then None else IndentFrom(s, k + 1)
  }

  const DefaultIndent: string := "            "

  /** The indentation of the first indented line of `inner`, else twelve spaces. */
  function IndentOf(inner: string): (w: string)
    ensures |w| > 0 && forall p :: 0 <= p < |w| ==> IsBlank(w[p])
  {
    match IndentFrom(inner, 0)
    case Some(m) => inner[m.start + 1..m.end]
    case None => DefaultIndent
  }

  /** Without an indented line the default of twelve spaces is used. */
  lemma IndentOfDefault(inner: string)
    requires forall j :: 0 <= j < |inner| - 1 ==> inner[j] != '\n' || !IsBlank(inner[j + 1])
    ensures IndentOf(inner) == DefaultIndent && |DefaultIndent| == 12
  {
  }

  /** Contents that open with a line feed and an indented line take that line's indentation. */
  lemma IndentOfLeading(w: string, rest: string)
    requires |w| > 0 && (forall p :: 0 <= p < |w| ==> IsBlank(w[p]))
    requires |rest| > 0 && !IsSpace(rest[0])
    ensures IndentOf("\n" + w + rest) == w
  {
    var s := "\n" + w + rest;
    assert forall p :: 1 <= p < 1 + |w| ==> s[p] == w[p - 1];
    assert s[1 + |w|] == rest[0];
    BlanksFromIs(s, 1, 1 + |w|);
    assert s[1..1 + |w|] == w;
  }

  lemma {:induction false} BlanksFromIs(s: string, k: nat, e: nat)
    requires k <= e < |s| && !IsBlank(s[e])
    requires forall p :: k <= p < e ==> IsBlank(s[p])
    ensures BlanksFrom(s, k) == e
    decreases e - k
  {
    if k < e {
      BlanksFromIs(s, k + 1, e);
    }
  }

  // ---------------------------------------------------------------------------
  // The new contents

  /** `[indent + line for line in lines]` */
  function Indented(indent: string, lines: seq<string>): (ls: seq<string>)
    ensures |ls| == |lines|
  {
    if |lines| == 0 then [] else [indent + lines[0]] + Indented(indent, lines[1..])
  }

  /** The list contents: a `<br>` line, then every line of `newInner`, each behind `indent`. */
  function ListInner(indent: string, newInner: string): string {
    var lines := SplitLines(newInner);
    if |lines| > 0 then "\n" + indent + "<br>\n" + Join(Indented(indent, lines), "\n") + "\n"
    else "\n" + indent + "<br>\n"
  }

  /** The text contents: `f"\n{indent}{new_text}\n"`. */
  function TextInner(indent: string, newText: string): string {
    "\n" + indent + newText + "\n"
  }

  /** The contents between the tags of a located site. */
  function OldInner(html: string, site: Site): string
    requires site.open.end <= site.close.start <= |html|
  {
    html[site.open.end..site.close.start]
  }

  /** `html[:open_end] + inner + html[close_start:]` */
  function Splice(html: string, site: Site, inner: string): string
    requires site.open.end <= site.close.start <= |html|
  {
    html[..site.open.end] + inner + html[site.close.start..]
  }

  /** `replace_section_list(html, section_id, list_tag, new_inner)` */
  function ReplaceSectionList(html: string, id: string, tag: string, newInner: string): string {
    match Locate(html, id, tag)
    case None => html
    case Some(site) => Splice(html, site, ListInner(IndentOf(OldInner(html, site)), newInner))
  }

  /** `replace_text_after_section(html, section_id, tag, new_text)` */
  function ReplaceTextAfterSection(html: string, id: string, tag: string, newText: string): string {
    match Locate(html, id, tag)
    case None => html
    case Some(site) => Splice(html, site, TextInner(IndentOf(OldInner(html, site)), newText))
  }

  // ---------------------------------------------------------------------------
  // What the splicers keep and what they change

  /** Splicing keeps everything up to the end of the opening tag and everything from the closing tag on. */
  lemma SpliceKeeps(html: string, site: Site, inner: string)
    requires site.open.end <= site.close.start <= |html|
    ensures var r, e := Splice(html, site, inner), site.open.end;
      && |r| == |html| - (site.close.start - e) + |inner|
      && r[..e] == html[..e]
      && r[e..e + |inner|] == inner
      && r[e + |inner|..] == html[site.close.start..]
  {
  }

  /** Without the anchor, the page is returned unchanged. */
  lemma UnchangedWithoutAnchor(html: string, id: string, tag: string, content: string)
    requires !Contains(html, Anchor(id))
    ensures ReplaceSectionList(html, id, tag, content) == html
    ensures ReplaceTextAfterSection(html, id, tag, content) == html
  {
  }

  /** Without an opening tag from the anchor on, the page is returned unchanged. */
  lemma UnchangedWithoutOpening(html: string, id: string, tag: string, content: string, a: nat)
    requires Find(html, Anchor(id)) == Some(a)
    requires NoTagIn(html, Opening, tag, a, |html| + 1)
    ensures ReplaceSectionList(html, id, tag, content) == html
    ensures ReplaceTextAfterSection(html, id, tag, content) == html
  {
  }

  /** Without a closing tag after the opening tag, the page is returned unchanged. */
  lemma UnchangedWithoutClosing(html: string, id: string, tag: string, content: string, a: nat, op: Span)
    requires Find(html, Anchor(id)) == Some(a)
    requires a <= op.start <= |html| && TagEndAt(html, Opening, tag, op.start) == Some(op.end)
    requires NoTagIn(html, Opening, tag, a, op.start)
    requires NoTagIn(html, Closing, tag, op.end, |html| + 1)
    ensures ReplaceSectionList(html, id, tag, content) == html
    ensures ReplaceTextAfterSection(html, id, tag, content) == html
  {
    SearchIs(html, Opening, tag, a, op);
  }

  /**
    At a located site the list splicer keeps the page up to the end of the
    opening tag and from the closing tag on, and puts the list contents,
    indented like the old ones, in between.
  */
  lemma ReplaceSectionListAt(html: string, id: string, tag: string, newInner: string, site: Site)
    requires Located(html, id, tag, site)
    ensures ReplaceSectionList(html, id, tag, newInner) ==
      html[..site.open.end] + ListInner(IndentOf(OldInner(html, site)), newInner) + html[site.close.start..]
  {
    LocatedUnique(html, id, tag, site);
  }

  /** The same for the text splicer, whose contents are exactly a line feed, the indentation, the text and a line feed. */
  lemma ReplaceTextAfterSectionAt(html: string, id: string, tag: string, newText: string, site: Site)
    requires Located(html, id, tag, site)
    ensures ReplaceTextAfterSection(html, id, tag, newText) ==
      html[..site.open.end] + "\n" + IndentOf(OldInner(html, site)) + newText + "\n" + html[site.close.start..]
  {
    LocatedUnique(html, id, tag, site);
    TextSpliceForm(html[..site.open.end], IndentOf(OldInner(html, site)), newText, html[site.close.start..]);
  }

  lemma TextSpliceForm(before: string, indent: string, newText: string, after: string)
    ensures before + TextInner(indent, newText) + after == before + "\n" + indent + newText + "\n" + after
  {
  }

  /** A string none of whose pieces holds a line feed splits back into its pieces. */
  lemma {:induction false} SplitJoinLines(ys: seq<string>)
    requires |ys| > 0
    requires forall i, j :: 0 <= i < |ys| && 0 <= j < |ys[i]| ==> ys[i][j] != '\n'
    ensures Split(Join(ys, "\n") + "\n", '\n') == ys + [""]
  {
    if |ys| == 1 {
      SplitAfterPiece(ys[0], '\n', "");
      assert ys[0] + "\n" == ys[0] + ['\n'] + "";
    } else {
      var rest := Join(ys[1..], "\n") + "\n";
      SplitJoinLines(ys[1..]);
      SplitAfterPiece(ys[0], '\n', rest);
      assert Join(ys, "\n") + "\n" == ys[0] + ['\n'] + rest;
      assert ys == [ys[0]] + ys[1..];
    }
  }

  lemma {:induction false} IndentedNoLineFeed(indent: string, lines: seq<string>)
    requires forall j :: 0 <= j < |indent| ==> indent[j] != '\n'
    requires forall i, j :: 0 <= i < |lines| && 0 <= j < |lines[i]| ==> lines[i][j] != '\n'
    ensures forall i, j :: 0 <= i < |lines| && 0 <= j < |Indented(indent, lines)[i]| ==> Indented(indent, lines)[i][j] != '\n'
    ensures forall i :: 0 <= i < |lines| ==> Indented(indent, lines)[i] == indent + lines[i]
  {
    if |lines| > 0 {
      IndentedNoLineFeed(indent, lines[1..]);
    }
  }

  /** Pieces without line feeds, joined by line feeds and closed by one, are split back into the pieces. */
  lemma SplitLinesJoinLines(ys: seq<string>)
    requires |ys| > 0
    requires forall i, j :: 0 <= i < |ys| && 0 <= j < |ys[i]| ==> ys[i][j] != '\n'
    ensures SplitLines(Join(ys, "\n") + "\n") == ys
  {
    var t := Join(ys, "\n") + "\n";
    SplitJoinLines(ys);
    assert t[|t| - 1] == '\n';
    var p := Split(t, '\n');
    assert p[..|p| - 1] == ys;
  }

  lemma JoinCons(y: string, xs: seq<string>, sep: string)
    requires |xs| > 0
    ensures Join([y] + xs, sep) == y + sep + Join(xs, sep)
  {
    assert ([y] + xs)[1..] == xs;
  }

  /** The list contents are a line feed, the `<br>` line and the indented lines joined by line feeds, and a line feed. */
  lemma ListInnerJoin(indent: string, newInner: string)
    ensures ListInner(indent, newInner) ==
      "\n" + (Join([indent + "<br>"] + Indented(indent, SplitLines(newInner)), "\n") + "\n")
  {
    var ls := Indented(indent, SplitLines(newInner));
    var head := indent + "<br>";
    if |ls| > 0 {
      JoinCons(head, ls, "\n");
      assert "\n" + indent + "<br>\n" == "\n" + head + "\n";
    } else {
      assert [head] + ls == [head];
      assert "\n" + indent + "<br>\n" == "\n" + (head + "\n");
    }
  }

  /**
    Line by line, the list contents after their opening line feed are the
    `<br>` line and then every line of the new contents, each behind the
    indentation.
  */
  lemma ListInnerLines(indent: string, newInner: string)
    requires forall j :: 0 <= j < |indent| ==> indent[j] != '\n'
    ensures ListInner(indent, newInner)[..1] == "\n"
    ensures SplitLines(ListInner(indent, newInner)[1..]) == [indent + "<br>"] + Indented(indent, SplitLines(newInner))
  {
    var ys := [indent + "<br>"] + Indented(indent, SplitLines(newInner));
    ListInnerJoin(indent, newInner);
    BlockNoLineFeed(indent, newInner);
    SplitLinesJoinLines(ys);
    AfterLineFeed(Join(ys, "\n") + "\n");
  }

  lemma AfterLineFeed(t: string)
    ensures ("\n" + t)[..1] == "\n" && ("\n" + t)[1..] == t
  {
  }

  /** No line of the list contents holds a line feed. */
  lemma BlockNoLineFeed(indent: string, newInner: string)
    requires forall j :: 0 <= j < |indent| ==> indent[j] != '\n'
    ensures var ys := [indent + "<br>"] + Indented(indent, SplitLines(newInner));
      forall i, j :: 0 <= i < |ys| && 0 <= j < |ys[i]| ==> ys[i][j] != '\n'
  {
    var lines := SplitLines(newInner);
    var head := indent + "<br>";
    var ys := [head] + Indented(indent, lines);
    IndentedNoLineFeed(indent, lines);
    assert forall j :: 0 <= j < |head| ==> head[j] != '\n';
    assert forall i :: 1 <= i < |ys| ==> ys[i] == Indented(indent, lines)[i - 1];
  }

  /** A page patched by the list splicer keeps the indentation it found. */
  lemma ListInnerKeepsIndent(indent: string, newInner: string)
    requires |indent| > 0 && forall p :: 0 <= p < |indent| ==> IsBlank(indent[p])
    ensures IndentOf(ListInner(indent, newInner)) == indent
  {
    var t := Join([indent + "<br>"] + Indented(indent, SplitLines(newInner)), "\n") + "\n";
    ListInnerJoin(indent, newInner);
    StartsWithHead(indent, [indent + "<br>"] + Indented(indent, SplitLines(newInner)));
    var rest := t[|indent|..];
    assert t == indent + rest;
    assert "\n" + t == "\n" + indent + rest;
    IndentOfLeading(indent, rest);
  }

  /** A join starting with `w + "<br>"` starts with `w` and then `<`. */
  lemma StartsWithHead(w: string, ys: seq<string>)
    requires |ys| > 0 && |ys[0]| > |w| && ys[0][..|w|] == w && ys[0][|w|] == '<'
    ensures var t := Join(ys, "\n") + "\n"; |t| > |w| && t[..|w|] == w && t[|w|] == '<'
  {
    if |ys| > 1 {
      JoinCons(ys[0], ys[1..], "\n");
      assert [ys[0]] + ys[1..] == ys;
    }
  }

  /** Text that starts with a character other than whitespace keeps the indentation it was given. */
  lemma TextInnerKeepsIndent(indent: string, newText: string)
    requires |indent| > 0 && forall p :: 0 <= p < |indent| ==> IsBlank(indent[p])
    requires |newText| > 0 && !IsSpace(newText[0])
    ensures IndentOf(TextInner(indent, newText)) == indent
  {
    IndentOfLeading(indent, newText + "\n");
    assert TextInner(indent, newText) == "\n" + indent + (newText + "\n");
  }
}
