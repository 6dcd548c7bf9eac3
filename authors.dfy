/**
  Author highlighting (`highlight_authors`): the site owner's name in an author
  list is wrapped in a `deepblue` font, either at the 1-based position an
  `author_order` cell gives or, failing that, wherever the name pattern
  `\b(Yuchen\s+Li|Y\.?\s*Li)\b` (case-insensitive) matches. The position
  branch writes `<font class="deepblue">`; the pattern's raw replacement
  template writes `<font class=\"deepblue\">`, backslashes included.
*/
module Authors {
  import opened Wrappers
  import opened Strings

  /** The opening tag the position branch writes around the owner's name. */
  const MarkOpen := "<font class=\"deepblue\">"

  /**
    The opening tag the name pattern writes: its raw replacement template holds
    `\"`, an escape `re.sub` does not know and so keeps as a backslash and a quote.
  */
  const SourceOpen := "<font class=\\\"deepblue\\\">"

  /** `s` between the opening tag `open` and `</font>`. */
  function Mark(open: string, s: string): string {
    open + s + "</font>"
  }

  /** The emphasis markup the position branch puts around the owner's name. */
  function Wrap(s: string): string {
    Mark(MarkOpen, s)
  }

  // ---------------------------------------------------------------------------
  // The global name pattern, as a scanner

  /** A regex word character (ASCII letters, digits and underscore). */
  predicate IsWordChar(c: char) {
    ('a' <= c <= 'z') || ('A' <= c <= 'Z') || ('0' <= c <= '9') || c == '_'
  }

  /** `t` holds the lower-case word `w` at `q`, ignoring case. */
  predicate WordAtCI(t: string, q: nat, w: string) {
    q + |w| <= |t| && forall i :: 0 <= i < |w| ==> LowerChar(t[q + i]) == w[i]
  }

  /** `\b` after a final word character at `e - 1`. */
  predicate BoundaryAt(t: string, e: nat) {
    e == |t| || (e < |t| && !IsWordChar(t[e]))
  }

  /** The whitespace run starting at `q`. */
  function SpaceRun(t: string, q: nat): (n: nat)
    requires q <= |t|
    ensures q + n <= |t|
    ensures forall i :: q <= i < q + n ==> IsSpace(t[i])
    ensures q + n < |t| ==> !IsSpace(t[q + n])
  {
    var n := SpanLeft(t[q..]);
    assert forall i :: q <= i < q + n ==> t[i] == t[q..][i - q];
    n
  }

  /** The end of a match of `Li\b` after the whitespace at `q`, when `min` spaces or more come first. */
  function SurnameEnd(t: string, q: nat, min: nat): (o: Option<nat>)
    requires q <= |t|
    ensures o.Some? ==> q < o.value <= |t|
  {
    var n := SpaceRun(t, q);
    if n >= min && WordAtCI(t, q + n, "li") && BoundaryAt(t, q + n + 2) then Some(q + n + 2) else None
  }

  /** The first alternative, `Yuchen\s+Li\b`, from `p`. */
  function FullNameEnd(t: string, p: nat): (o: Option<nat>)
    requires p <= |t|
    ensures o.Some? ==> p < o.value <= |t| && LowerChar(t[p]) == 'y'
  {
    if WordAtCI(t, p, "yuchen") then
      assert LowerChar(t[p + 0]) == "yuchen"[0];
      SurnameEnd(t, p + 6, 1)
    else None
  }

  /** The second alternative, `Y\.?\s*Li\b`, from `p`. */
  function InitialNameEnd(t: string, p: nat): (o: Option<nat>)
    requires p <= |t|
    ensures o.Some? ==> p < o.value <= |t| && LowerChar(t[p]) == 'y'
  {
    if WordAtCI(t, p, "y") then
      assert LowerChar(t[p + 0]) == "y"[0];
      var q := if p + 1 < |t| && t[p + 1] == '.' then p + 2 else p + 1;
      SurnameEnd(t, q, 0)
    else None
  }

  /**
    Where a match of the name pattern that starts at `p` ends. The pattern's
    quantifiers never need to backtrack: `\s+`/`\s*` must stop at the `L`, and
    `\.?` must take a dot that is there.
  */
  function NameMatchEnd(t: string, p: nat): (o: Option<nat>)
    requires p <= |t|
    ensures o.Some? ==> p < o.value <= |t| && LowerChar(t[p]) == 'y'
  {
    if p < |t| && (p == 0 || !IsWordChar(t[p - 1])) then
      match FullNameEnd(t, p)
      case Some(e) => Some(e)
      case None => InitialNameEnd(t, p)
    else None
  }

  /** `NAME_HIGHLIGHT_PATTERN.sub(...)` on `t[p..]`: matches are replaced left to right. */
  function HighlightFrom(t: string, p: nat, open: string): string
    requires p <= |t|
    decreases |t| - p
  {
    if p == |t| then ""
    else if LowerChar(t[p]) != 'y' then [t[p]] + HighlightFrom(t, p + 1, open)
    else
      match NameMatchEnd(t, p)
      case Some(e) => Mark(open, t[p..e]) + HighlightFrom(t, e, open)
      case None => [t[p]] + HighlightFrom(t, p + 1, open)
  }

  /** The pattern's substitution over the whole text, each match marked with `open`. */
  function HighlightNameWith(t: string, open: string): string {
    HighlightFrom(t, 0, open)
  }

  /** `highlight_name_globally(text)`, as written. */
  function HighlightName(t: string): string {
    HighlightNameWith(t, SourceOpen)
  }

  /** The substitution with the position branch's markup, as evidently intended. */
  function HighlightNameIntended(t: string): string {
    HighlightNameWith(t, MarkOpen)
  }

  /** A stretch without the letter y is copied unchanged. */
  lemma {:induction false} HighlightCopies(t: string, p: nat, q: nat, open: string)
    requires p <= q <= |t|
    requires forall i :: p <= i < q ==> LowerChar(t[i]) != 'y'
    ensures HighlightFrom(t, p, open) == t[p..q] + HighlightFrom(t, q, open)
    decreases q - p
  {
    if p < q {
      HighlightCopiesOne(t, p, open);
      HighlightCopies(t, p + 1, q, open);
      ConsSlice(t, p, q, HighlightFrom(t, p, open), HighlightFrom(t, p + 1, open), HighlightFrom(t, q, open));
    }
  }

  /** Copying `t[p]` in front of the copy of `t[p + 1..q]` copies `t[p..q]`. */
  lemma ConsSlice(t: string, p: nat, q: nat, a: string, b: string, c: string)
    requires p < q <= |t| && a == [t[p]] + b && b == t[p + 1..q] + c
    ensures a == t[p..q] + c
  {
    assert t[p..q] == [t[p]] + t[p + 1..q];
  }

  /** A character other than y is copied by itself. */
  lemma HighlightCopiesOne(t: string, p: nat, open: string)
    requires p < |t| && LowerChar(t[p]) != 'y'
    ensures HighlightFrom(t, p, open) == [t[p]] + HighlightFrom(t, p + 1, open)
  {
  }

  /** Where the pattern matches nowhere, the text is returned unchanged. */
  lemma {:induction false} HighlightNoMatch(t: string, p: nat, open: string)
    requires p <= |t|
    requires forall i :: p <= i <= |t| ==> NameMatchEnd(t, i).None?
    ensures HighlightFrom(t, p, open) == t[p..]
    decreases |t| - p
  {
    if p < |t| {
      HighlightNoMatch(t, p + 1, open);
      assert t[p..] == [t[p]] + t[p + 1..];
    }
  }

  lemma HighlightNameNoMatch(t: string, open: string)
    requires forall i :: 0 <= i <= |t| ==> NameMatchEnd(t, i).None?
    ensures HighlightNameWith(t, open) == t
  {
    HighlightNoMatch(t, 0, open);
  }

  /** A match in the middle is marked and what surrounds it is copied. */
  lemma HighlightOneMatch(t: string, p: nat, e: nat, open: string)
    requires p <= |t| && NameMatchEnd(t, p) == Some(e)
    requires forall i :: 0 <= i < p ==> LowerChar(t[i]) != 'y'
    requires forall i :: e <= i < |t| ==> LowerChar(t[i]) != 'y'
    ensures HighlightNameWith(t, open) == t[..p] + Mark(open, t[p..e]) + t[e..]
  {
    HighlightCopies(t, 0, p, open);
    HighlightCopies(t, e, |t|, open);
    assert t[0..p] == t[..p];
    assert t[e..|t|] == t[e..];
  }

  // ---------------------------------------------------------------------------
  // highlight_authors

  /** `[t.strip() for t in authors.split(',')]` */
  function Tokens(authors: string): (ts: seq<string>)
    ensures |ts| == |Split(authors, ',')|
  {
    var parts := Split(authors, ',');
    seq(|parts|, i requires 0 <= i < |parts| => Strip(parts[i]))
  }

  /**
    The author position an `author_order` cell gives: `int(value.strip())` when
    the cell is non-empty, parses and is at least 1.
  */
  function AuthorIndex(order: string): (o: Option<nat>)
    ensures o.Some? ==> o.value >= 1
  {
    if order == "" then None
    else
      match ParseInt(Strip(order))
      case Some(k) => if k >= 1 then Some(k as nat) else None
      case None => None
  }

  /** The tokens with the one at 1-based position `k` wrapped. */
  function MarkToken(tokens: seq<string>, k: nat): (ms: seq<string>)
    ensures |ms| == |tokens|
  {
    seq(|tokens|, i requires 0 <= i < |tokens| => if i + 1 == k then Wrap(tokens[i]) else tokens[i])
  }

  /** `highlight_authors`, with the name pattern's matches marked by `open`. */
  function HighlightAuthorsWith(authors: string, order: string, open: string): string {
    if authors == "" then authors
    else
      match AuthorIndex(order)
      case Some(k) =>
        var tokens := Tokens(authors);
        if k <= |tokens| then Join(MarkToken(tokens, k), ", ") else HighlightNameWith(authors, open)
      case None => HighlightNameWith(authors, open)
  }

  /** `highlight_authors(authors, author_order_value)`, as written. */
  function HighlightAuthors(authors: string, order: string): string {
    HighlightAuthorsWith(authors, order, SourceOpen)
  }

  /** `highlight_authors` with one markup for both branches, as evidently intended. */
  function HighlightAuthorsIntended(authors: string, order: string): string {
    HighlightAuthorsWith(authors, order, MarkOpen)
  }

  /** No character of `s` is `c`. */
  predicate NoChar(s: string, c: char) {
    forall i :: 0 <= i < |s| ==> s[i] != c
  }

  predicate IsStripped(s: string) {
    s == [] || (!IsSpace(s[0]) && !IsSpace(s[|s| - 1]))
  }

  /** Splitting `pre + Join(xs, sep)`, where `sep` is `c` then `pad`, on `c` finds the pieces again. */
  lemma {:induction false} SplitJoinPadded(pre: string, xs: seq<string>, c: char, pad: string, sep: string)
    requires sep == [c] + pad
    requires |xs| >= 1 && NoChar(pre, c) && NoChar(pad, c)
    requires forall i :: 0 <= i < |xs| ==> NoChar(xs[i], c)
    ensures var parts := Split(pre + Join(xs, sep), c);
      |parts| == |xs| && parts[0] == pre + xs[0] &&
      forall i :: 1 <= i < |xs| ==> parts[i] == pad + xs[i]
    decreases |xs|
  {
    if |xs| == 1 {
      assert Join(xs, sep) == xs[0];
      SplitNoSeparator(pre + xs[0], c);
    } else {
      var a := pre + xs[0];
      var rest := Join(xs[1..], sep);
      var b := pad + rest;
      assert Join(xs, sep) == xs[0] + sep + rest;
      assert pre + Join(xs, sep) == a + [c] + b;
      SplitAfterPiece(a, c, b);
      SplitJoinPadded(pad, xs[1..], c, pad, sep);
    }
  }

  /** A piece of the re-split list strips back to its token. */
  lemma StripPiece(piece: string, tok: string, first: bool)
    requires IsStripped(tok)
    requires piece == if first then tok else " " + tok
    ensures Strip(piece) == tok
  {
    if first {
      StripNoop(tok);
    } else {
      StripSpacePrefix(" ", tok);
    }
  }

  /** The comma pieces of a `", "`-joined list: the first token, then each further token after a space. */
  lemma SplitJoinComma(ts: seq<string>)
    requires |ts| >= 1
    requires forall i :: 0 <= i < |ts| ==> NoChar(ts[i], ',')
    ensures var parts := Split(Join(ts, ", "), ',');
      |parts| == |ts| && parts[0] == ts[0] &&
      forall i :: 1 <= i < |ts| ==> parts[i] == " " + ts[i]
  {
    var joined := Join(ts, ", ");
    SplitJoinPadded("", ts, ',', " ", ", ");
    assert "" + joined == joined;
  }

  /** Re-reading the tokens of a `", "`-joined list of stripped, comma-free tokens gives them back. */
  lemma TokensJoin(ts: seq<string>)
    requires |ts| >= 1
    requires forall i :: 0 <= i < |ts| ==> NoChar(ts[i], ',') && IsStripped(ts[i])
    ensures Tokens(Join(ts, ", ")) == ts
  {
    var joined := Join(ts, ", ");
    SplitJoinComma(ts);
    var parts := Split(joined, ',');
    var back := Tokens(joined);
    assert |back| == |ts|;
    forall i | 0 <= i < |ts| ensures back[i] == ts[i] {
      StripPiece(parts[i], ts[i], i == 0);
    }
  }

  /** Tokens are stripped and have no comma. */
  lemma TokensForm(authors: string)
    ensures forall i :: 0 <= i < |Tokens(authors)| ==>
      NoChar(Tokens(authors)[i], ',') && IsStripped(Tokens(authors)[i])
  {
    var parts := Split(authors, ',');
    forall i | 0 <= i < |parts| ensures NoChar(Strip(parts[i]), ',') {
      assert NoChar(parts[i], ',');
      StripNoChar(parts[i], ',');
    }
  }

  /** Stripping adds no character. */
  lemma StripNoChar(s: string, c: char)
    requires NoChar(s, c)
    ensures NoChar(Strip(s), c)
  {
    var t := TrimLeft(s);
    assert forall j :: 0 <= j < |t| ==> t[j] == s[SpanLeft(s) + j];
    var u := TrimRight(t);
    assert forall j :: 0 <= j < |u| ==> u[j] == t[j];
  }

  /** The markup keeps a token comma-free and stripped. */
  lemma WrapForm(tok: string)
    requires NoChar(tok, ',')
    ensures NoChar(Wrap(tok), ',') && IsStripped(Wrap(tok))
  {
    var w := Wrap(tok);
    forall j | 0 <= j < |w| ensures w[j] != ',' {
      if 23 <= j < 23 + |tok| {
        assert w[j] == tok[j - 23];
      }
    }
  }

  /** Empty author lists come back unchanged. */
  lemma HighlightAuthorsEmpty(order: string, open: string)
    ensures HighlightAuthorsWith("", order, open) == ""
  {
  }

  /**
    With a valid position `k`, the result is the author list again, token for
    token: read back as comma tokens it has exactly token `k` wrapped and every
    other token as it was.
  */
  lemma HighlightAuthorsByPosition(authors: string, order: string, k: nat, open: string)
    requires authors != "" && AuthorIndex(order) == Some(k) && k <= |Tokens(authors)|
    ensures HighlightAuthorsWith(authors, order, open) == Join(MarkToken(Tokens(authors), k), ", ")
    ensures var before, after := Tokens(authors), Tokens(HighlightAuthorsWith(authors, order, open));
      && |after| == |before|
      && after[k - 1] == Wrap(before[k - 1])
      && forall i :: 0 <= i < |before| && i != k - 1 ==> after[i] == before[i]
  {
    var ts := Tokens(authors);
    var ms := MarkToken(ts, k);
    HighlightAuthorsMarked(authors, order, k, open);
    TokensForm(authors);
    MarkTokenForm(ts, k);
    TokensJoin(ms);
  }

  /** With a valid position, the authors are the marked tokens joined by ", ". */
  lemma HighlightAuthorsMarked(authors: string, order: string, k: nat, open: string)
    requires authors != "" && AuthorIndex(order) == Some(k) && k <= |Tokens(authors)|
    ensures HighlightAuthorsWith(authors, order, open) == Join(MarkToken(Tokens(authors), k), ", ")
  {
  }

  /** Marking a token keeps every token stripped and free of commas. */
  lemma MarkTokenForm(ts: seq<string>, k: nat)
    requires forall i :: 0 <= i < |ts| ==> NoChar(ts[i], ',') && IsStripped(ts[i])
    ensures forall i :: 0 <= i < |ts| ==> NoChar(MarkToken(ts, k)[i], ',') && IsStripped(MarkToken(ts, k)[i])
  {
    var ms := MarkToken(ts, k);
    forall i | 0 <= i < |ms| ensures NoChar(ms[i], ',') && IsStripped(ms[i]) {
      if i + 1 == k {
        WrapForm(ts[i]);
      }
    }
  }

  /** The highlighted text starts with the text's first character or with the markup. */
  lemma HighlightNameFirst(t: string, open: string)
    requires t != [] && open != []
    ensures var h := HighlightNameWith(t, open); h != [] && (h[0] == t[0] || h[0] == open[0])
  {
  }

  /**
    A non-empty author list whose first character is not whitespace highlights
    to a text whose first character is not whitespace either.
  */
  lemma HighlightAuthorsNotBlank(authors: string, order: string, open: string)
    requires authors != [] && !IsSpace(authors[0])
    requires open != [] && !IsSpace(open[0])
    ensures var h := HighlightAuthorsWith(authors, order, open); h != [] && !IsSpace(h[0])
    ensures !AllSpace(HighlightAuthorsWith(authors, order, open))
  {
    var h := HighlightAuthorsWith(authors, order, open);
    var o := AuthorIndex(order);
    if o.Some? && o.value <= |Tokens(authors)| {
      var ts := Tokens(authors);
      var ms := MarkToken(ts, o.value);
      if |ms| == 1 {
        assert h == ms[0] == Wrap(ts[0]);
        assert !IsSpace(h[0]);
      } else {
        TokensForm(authors);
        MarkTokenForm(ts, o.value);
        assert h == ms[0] + ", " + Join(ms[1..], ", ");
        assert IsStripped(ms[0]);
        assert h[0] == if ms[0] == "" then ',' else ms[0][0];
      }
    } else {
      HighlightNameFirst(authors, open);
    }
  }

  /**
    Without a usable position (none, not a number, below 1 or past the last
    token) the name pattern decides.
  */
  lemma HighlightAuthorsFallback(authors: string, order: string, open: string)
    requires authors != ""
    requires order == "" || ParseInt(Strip(order)).None? || ParseInt(Strip(order)).value < 1
      || ParseInt(Strip(order)).value > |Tokens(authors)|
    ensures HighlightAuthorsWith(authors, order, open) == HighlightNameWith(authors, open)
  {
  }

  /** Writing a position out and reading it back gives that position. */
  lemma AuthorIndexNatToString(k: nat)
    requires k >= 1
    ensures AuthorIndex(NatToString(k)) == Some(k)
  {
    var s := NatToString(k);
    StripNoop(s);
    ParseIntNatToString(k);
  }

  /** The full name between two non-word characters (or the ends of the text) is a match. */
  lemma FullNameMatch(pre: string, post: string)
    requires pre == [] || !IsWordChar(pre[|pre| - 1])
    requires post == [] || !IsWordChar(post[0])
    ensures NameMatchEnd(pre + "Yuchen Li" + post, |pre|) == Some(|pre| + 9)
  {
    var t := pre + "Yuchen Li" + post;
    var p := |pre|;
    assert t[p..p + 9] == "Yuchen Li";
    assert p > 0 ==> t[p - 1] == pre[p - 1];
    assert |post| > 0 ==> t[p + 9] == post[0];
    FullNameAt(t, p);
  }

  /** "Yuchen Li" at `p`, after a non-word character and before a boundary, is one match. */
  lemma FullNameAt(t: string, p: nat)
    requires p + 9 <= |t| && t[p..p + 9] == "Yuchen Li"
    requires p == 0 || !IsWordChar(t[p - 1])
    requires BoundaryAt(t, p + 9)
    ensures NameMatchEnd(t, p) == Some(p + 9)
  {
    GivenNameAt(t, p);
    SingleSpaceAt(t, p);
    SurnameAt(t, p);
    assert FullNameEnd(t, p) == Some(p + 9);
  }

  lemma GivenNameAt(t: string, p: nat)
    requires p + 9 <= |t| && t[p..p + 9] == "Yuchen Li"
    ensures WordAtCI(t, p, "yuchen")
  {
    forall i | 0 <= i < 6 ensures LowerChar(t[p + i]) == "yuchen"[i] {
      assert t[p + i] == t[p..p + 9][i];
    }
  }

  lemma SingleSpaceAt(t: string, p: nat)
    requires p + 9 <= |t| && t[p..p + 9] == "Yuchen Li"
    ensures SpaceRun(t, p + 6) == 1
  {
    assert t[p + 6] == t[p..p + 9][6] == ' ';
    assert t[p + 7] == t[p..p + 9][7] == 'L';
  }

  lemma SurnameAt(t: string, p: nat)
    requires p + 9 <= |t| && t[p..p + 9] == "Yuchen Li"
    ensures WordAtCI(t, p + 7, "li")
  {
    assert t[p + 7] == t[p..p + 9][7];
    assert t[p + 8] == t[p..p + 9][8];
  }

  /**
    The full name between two non-word characters (or the ends of the text)
    is wrapped, and text without the letter y around it is copied.
  */
  lemma HighlightFullName(pre: string, post: string, open: string)
    requires pre == [] || !IsWordChar(pre[|pre| - 1])
    requires post == [] || !IsWordChar(post[0])
    requires forall i :: 0 <= i < |pre| ==> LowerChar(pre[i]) != 'y'
    requires forall i :: 0 <= i < |post| ==> LowerChar(post[i]) != 'y'
    ensures HighlightNameWith(pre + "Yuchen Li" + post, open) == pre + Mark(open, "Yuchen Li") + post
  {
    var name := "Yuchen Li";
    var t := pre + name + post;
    var p := |pre|;
    FullNameMatch(pre, post);
    NoYAround(pre, name, post);
    HighlightOneMatch(t, p, p + 9, open);
    ThreeParts(pre, name, post);
  }

  /** Text without the letter y before and after `mid` keeps that property in `pre + mid + post`. */
  lemma NoYAround(pre: string, mid: string, post: string)
    requires forall i :: 0 <= i < |pre| ==> LowerChar(pre[i]) != 'y'
    requires forall i :: 0 <= i < |post| ==> LowerChar(post[i]) != 'y'
    ensures var t, e := pre + mid + post, |pre| + |mid|;
      && (forall i :: 0 <= i < |pre| ==> LowerChar(t[i]) != 'y')
      && (forall i :: e <= i < |t| ==> LowerChar(t[i]) != 'y')
  {
    var t, e := pre + mid + post, |pre| + |mid|;
    assert forall i :: 0 <= i < |pre| ==> t[i] == pre[i];
    assert forall i :: e <= i < |t| ==> t[i] == post[i - e];
  }

  /** The three pieces of `pre + mid + post` are found again by slicing. */
  lemma ThreeParts(pre: string, mid: string, post: string)
    ensures var t, e := pre + mid + post, |pre| + |mid|;
      t[..|pre|] == pre && t[|pre|..e] == mid && t[e..] == post
  {
  }

  /**
    "Alice Lee, Yuchen Li, Bob Chen" highlighted by the name pattern, with the
    markup as written and with the intended markup.
  */
  lemma HighlightNameExample()
    ensures HighlightName("Alice Lee, Yuchen Li, Bob Chen") ==
      "Alice Lee, " + Mark(SourceOpen, "Yuchen Li") + ", Bob Chen"
    ensures HighlightNameIntended("Alice Lee, Yuchen Li, Bob Chen") ==
      "Alice Lee, " + Wrap("Yuchen Li") + ", Bob Chen"
  {
    var pre, post := "Alice Lee, ", ", Bob Chen";
    assert pre + "Yuchen Li" + post == "Alice Lee, Yuchen Li, Bob Chen";
    HighlightFullName(pre, post, SourceOpen);
    HighlightFullName(pre, post, MarkOpen);
  }

  lemma JoinThree(a: string, b: string, c: string, sep: string)
    ensures Join([a, b, c], sep) == a + sep + b + sep + c
  {
    assert [a, b, c][1..] == [b, c];
    assert [b, c][1..] == [c];
    assert Join([c], sep) == c;
    assert Join([b, c], sep) == b + sep + c;
  }

  lemma ExamplePieces()
    ensures "Alice Lee" + ", " == "Alice Lee, "
    ensures ", " + "Bob Chen" == ", Bob Chen"
    ensures "Alice Lee" + ", " + "Yuchen Li" + ", " + "Bob Chen" == "Alice Lee, Yuchen Li, Bob Chen"
  {
  }

  lemma ExampleTokens()
    ensures Tokens("Alice Lee, Yuchen Li, Bob Chen") == ["Alice Lee", "Yuchen Li", "Bob Chen"]
  {
    var ts := ["Alice Lee", "Yuchen Li", "Bob Chen"];
    JoinThree("Alice Lee", "Yuchen Li", "Bob Chen", ", ");
    ExamplePieces();
    forall i | 0 <= i < |ts| ensures NoChar(ts[i], ',') && IsStripped(ts[i]) {
    }
    TokensJoin(ts);
  }

  lemma ExampleIndex()
    ensures AuthorIndex("2") == Some(2)
  {
    StripNoop("2");
    assert "2"[..0] == "";
  }

  lemma ExampleMarked()
    ensures Join(MarkToken(["Alice Lee", "Yuchen Li", "Bob Chen"], 2), ", ") ==
      "Alice Lee, " + Wrap("Yuchen Li") + ", Bob Chen"
  {
    var ms := MarkToken(["Alice Lee", "Yuchen Li", "Bob Chen"], 2);
    var w := Wrap("Yuchen Li");
    assert ms == ["Alice Lee", w, "Bob Chen"];
    JoinThree("Alice Lee", w, "Bob Chen", ", ");
    ExamplePieces();
    var x := "Alice Lee, " + w;
    assert "Alice Lee" + ", " + w + ", " + "Bob Chen" == x + ", " + "Bob Chen";
    assert x + ", " + "Bob Chen" == x + (", " + "Bob Chen");
  }

  /**
    Position 2 of "Alice Lee, Yuchen Li, Bob Chen" wraps "Yuchen Li" and leaves
    the other two tokens as they were, whatever markup the pattern uses. The
    list is passed as a parameter fixed by the `requires`, rather than written
    into the `ensures`, only to keep the solver from unfolding the literal
    wherever it appears.
  */
  lemma HighlightAuthorsExample(authors: string, open: string)
    requires authors == "Alice Lee, Yuchen Li, Bob Chen"
    ensures HighlightAuthorsWith(authors, "2", open) == "Alice Lee, " + Wrap("Yuchen Li") + ", Bob Chen"
  {
    ExampleTokens();
    ExampleIndex();
    ExampleMarked();
  }

  /**
    Without a position the name pattern marks the same token, with the
    backslashed markup of the replacement template (the list is fixed the same
    way).
  */
  lemma HighlightAuthorsExampleFallback(authors: string)
    requires authors == "Alice Lee, Yuchen Li, Bob Chen"
    ensures HighlightAuthors(authors, "") == "Alice Lee, " + Mark(SourceOpen, "Yuchen Li") + ", Bob Chen"
  {
    HighlightNameExample();
  }

  // ---------------------------------------------------------------------------
  // The two markups

  /**
    As written, the same author list comes out with different markup depending
    on whether a position is given: the fallback writes `class=\"deepblue\"`.
  */
  lemma FallbackMarkupDiffers(authors: string)
    requires authors == "Alice Lee, Yuchen Li, Bob Chen"
    ensures HighlightAuthors(authors, "") != HighlightAuthors(authors, "2")
  {
    HighlightAuthorsExample(authors, SourceOpen);
    HighlightAuthorsExampleFallback(authors);
    MarkupsDiffer("Alice Lee, ", "Yuchen Li", ", Bob Chen");
  }

  /** The two markups around the same text, in the same place, give different strings. */
  lemma MarkupsDiffer(pre: string, s: string, post: string)
    ensures pre + Mark(SourceOpen, s) + post != pre + Wrap(s) + post
  {
    var x, y := pre + Mark(SourceOpen, s) + post, pre + Wrap(s) + post;
    assert x[|pre| + 12] == SourceOpen[12] == '\\';
    assert y[|pre| + 12] == MarkOpen[12] == '"';
  }

  /** With the intended markup the fallback marks the same token the same way as the position. */
  lemma IntendedMarkupAgrees(authors: string)
    requires authors == "Alice Lee, Yuchen Li, Bob Chen"
    ensures HighlightAuthorsIntended(authors, "") == HighlightAuthorsIntended(authors, "2")
  {
    HighlightAuthorsExample(authors, MarkOpen);
    HighlightNameExample();
  }

  /**
    With the intended markup, a list without a usable position whose one match
    is `t[p..e]` has that match wrapped exactly as the position branch wraps a
    token.
  */
  lemma IntendedFallbackWraps(t: string, order: string, p: nat, e: nat)
    requires t != ""
    requires order == "" || ParseInt(Strip(order)).None? || ParseInt(Strip(order)).value < 1
      || ParseInt(Strip(order)).value > |Tokens(t)|
    requires p <= |t| && NameMatchEnd(t, p) == Some(e)
    requires forall i :: 0 <= i < p ==> LowerChar(t[i]) != 'y'
    requires forall i :: e <= i < |t| ==> LowerChar(t[i]) != 'y'
    ensures HighlightAuthorsIntended(t, order) == t[..p] + Wrap(t[p..e]) + t[e..]
  {
    HighlightAuthorsFallback(t, order, MarkOpen);
    HighlightOneMatch(t, p, e, MarkOpen);
  }
}
