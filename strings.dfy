/**
  The string primitives the updater uses: `strip`, `lower`, substring search,
  `str.join`, `str.split`, `str.splitlines`, decimal formatting and `int()`.
  Whitespace and case are ASCII: the six characters space, tab, line feed,
  carriage return, vertical tab and form feed, and the letters A-Z.
*/
module Strings {
  import opened Wrappers

  predicate IsSpace(c: char) {
    c == ' ' || c == '\t' || c == '\n' || c == '\r' || c == '\U{000B}' || c == '\U{000C}'
  }

  predicate IsDigit(c: char) {
    '0' <= c <= '9'
  }

  predicate AllDigits(s: string) {
    forall i :: 0 <= i < |s| ==> IsDigit(s[i])
  }

  // ---------------------------------------------------------------------------
  // strip

  /** The length of the leading whitespace run. */
  function SpanLeft(s: string): (n: nat)
    ensures n <= |s| && (n < |s| ==> !IsSpace(s[n]))
    ensures forall i :: 0 <= i < n ==> IsSpace(s[i])
  {
    if s == [] || !IsSpace(s[0]) then 0 else 1 + SpanLeft(s[1..])
  }

  /** The end of the run of whitespace (`\s*`) that starts at `k`. */
  function SpacesFrom(s: string, k: nat): (e: nat)
    requires k <= |s|
    ensures k <= e <= |s| && (e < |s| ==> !IsSpace(s[e]))
    ensures forall i :: k <= i < e ==> IsSpace(s[i])
    decreases |s| - k
  {
    if k == |s| || !IsSpace(s[k]) then k else SpacesFrom(s, k + 1)
  }

  /** The length of the trailing whitespace run. */
  function SpanRight(s: string): (n: nat)
    ensures n <= |s| && (n < |s| ==> !IsSpace(s[|s| - 1 - n]))
    ensures forall i :: |s| - n <= i < |s| ==> IsSpace(s[i])
  {
    if s == [] || !IsSpace(s[|s| - 1]) then 0 else 1 + SpanRight(s[..|s| - 1])
  }

  /** `s.lstrip()` */
  function TrimLeft(s: string): string {
    s[SpanLeft(s)..]
  }

  /** `s.rstrip()` */
  function TrimRight(s: string): string {
    s[..|s| - SpanRight(s)]
  }

  /** `s.strip()` */
  function Strip(s: string): (r: string)
    ensures r == [] || (!IsSpace(r[0]) && !IsSpace(r[|r| - 1]))
  {
    TrimRight(TrimLeft(s))
  }

  /** A string with no whitespace at either end is its own strip. */
  lemma StripNoop(s: string)
    requires s == [] || (!IsSpace(s[0]) && !IsSpace(s[|s| - 1]))
    ensures Strip(s) == s
  {
  }

  predicate AllSpace(s: string) {
    forall i :: 0 <= i < |s| ==> IsSpace(s[i])
  }

  /** A string strips to nothing exactly when it is all whitespace. */
  lemma StripEmpty(s: string)
    ensures Strip(s) == "" <==> AllSpace(s)
  {
  }

  lemma StripIdempotent(s: string)
    ensures Strip(Strip(s)) == Strip(s)
  {
    StripNoop(Strip(s));
  }

  /** Whitespace added in front of a stripped string is stripped again. */
  lemma {:induction false} StripSpacePrefix(w: string, t: string)
    requires forall i :: 0 <= i < |w| ==> IsSpace(w[i])
    requires t == [] || (!IsSpace(t[0]) && !IsSpace(t[|t| - 1]))
    ensures Strip(w + t) == t
  {
    if w == [] {
      assert w + t == t;
      StripNoop(t);
    } else {
      assert (w + t)[1..] == w[1..] + t;
      StripSpacePrefix(w[1..], t);
    }
  }

  // ---------------------------------------------------------------------------
  // lower

  function LowerChar(c: char): char {
    if 'A' <= c <= 'Z' then (c as int + 32) as char else c
  }

  /** `s.lower()` on ASCII letters. */
  function Lower(s: string): string {
    seq(|s|, i requires 0 <= i < |s| => LowerChar(s[i]))
  }

  lemma LowerIdempotent(s: string)
    ensures Lower(Lower(s)) == Lower(s)
  {
  }

  // ---------------------------------------------------------------------------
  // substrings

  /** `t` holds `s` starting at index `i`. */
  predicate OccursAt(t: string, s: string, i: nat) {
    i + |s| <= |t| && t[i..i + |s|] == s
  }

  /** Python's `s in t`. */
  predicate Contains(t: string, s: string) {
    exists i: nat :: i <= |t| && OccursAt(t, s, i)
  }

  predicate StartsWith(t: string, p: string) {
    |p| <= |t| && t[..|p|] == p
  }

  predicate EndsWith(t: string, p: string) {
    |p| <= |t| && t[|t| - |p|..] == p
  }

  /** Every string contains itself (so an exact match is also a substring match). */
  lemma ContainsSelf(s: string)
    ensures Contains(s, s)
  {
    assert OccursAt(s, s, 0);
  }

  /** `t.find(s, k)`: the first occurrence of `s` at or after `k`. */
  function FindFrom(t: string, s: string, k: nat): (r: Option<nat>)
    requires k <= |t|
    ensures r.Some? ==> k <= r.value <= |t| && OccursAt(t, s, r.value)
    ensures r.Some? ==> forall j: nat :: k <= j < r.value ==> !OccursAt(t, s, j)
    ensures r.None? ==> forall j: nat :: k <= j ==> !OccursAt(t, s, j)
    decreases |t| - k
  {
    if OccursAt(t, s, k) then Some(k)
    else if k == |t| then None
    else FindFrom(t, s, k + 1)
  }

  /** `t.find(s)`, with -1 as None. */
  function Find(t: string, s: string): (r: Option<nat>)
    ensures r.Some? ==> OccursAt(t, s, r.value) && forall j: nat :: j < r.value ==> !OccursAt(t, s, j)
    ensures r.None? <==> !Contains(t, s)
  {
    FindFrom(t, s, 0)
  }

  // ---------------------------------------------------------------------------
  // join and filters

  /** `sep.join(xs)` */
  function Join(xs: seq<string>, sep: string): string {
    if |xs| == 0 then ""
    else if |xs| == 1 then xs[0]
    else xs[0] + sep + Join(xs[1..], sep)
  }

  lemma {:induction false} JoinSnoc(xs: seq<string>, y: string, sep: string)
    ensures Join(xs + [y], sep) == if |xs| == 0 then y else Join(xs, sep) + sep + y
  {
    if |xs| == 0 {
      assert xs + [y] == [y];
    } else if |xs| == 1 {
      assert (xs + [y])[1..] == [y];
    } else {
      assert (xs + [y])[1..] == xs[1..] + [y];
      JoinSnoc(xs[1..], y, sep);
    }
  }

  /** Joining is empty exactly when every piece is empty and there is at most one. */
  lemma {:induction false} JoinEmpty(xs: seq<string>, sep: string)
    requires |sep| > 0
    ensures Join(xs, sep) == "" <==> |xs| == 0 || (|xs| == 1 && xs[0] == "")
  {
    if |xs| > 1 {
      assert |Join(xs, sep)| >= |sep|;
    }
  }

  /** `[v for v in xs if v]` */
  function NonEmpty(xs: seq<string>): (r: seq<string>)
    ensures |r| <= |xs|
    ensures forall i :: 0 <= i < |r| ==> r[i] != "" && r[i] in xs
    ensures forall v :: v in xs && v != "" ==> v in r
  {
    if |xs| == 0 then []
    else if xs[|xs| - 1] == "" then NonEmpty(xs[..|xs| - 1])
    else NonEmpty(xs[..|xs| - 1]) + [xs[|xs| - 1]]
  }

  /** Joining the non-empty pieces gives "" exactly when every piece is empty. */
  lemma JoinNonEmptyEmpty(xs: seq<string>, sep: string)
    requires |sep| > 0
    ensures Join(NonEmpty(xs), sep) == "" <==> forall v :: v in xs ==> v == ""
  {
    var r := NonEmpty(xs);
    JoinEmpty(r, sep);
    if |r| > 0 {
      assert r[0] in xs;
    }
  }

  // ---------------------------------------------------------------------------
  // split

  /** `s.split(c)` for a one-character separator. */
  function Split(s: string, c: char): (parts: seq<string>)
    ensures |parts| >= 1
    ensures forall i, j :: 0 <= i < |parts| && 0 <= j < |parts[i]| ==> parts[i][j] != c
  {
    if s == [] then [""]
    else
      var rest := Split(s[1..], c);
      if s[0] == c then [""] + rest else [[s[0]] + rest[0]] + rest[1..]
  }

  /** Splitting on `c` and joining with `c` gives the string back. */
  lemma {:induction false} JoinSplit(s: string, c: char)
    ensures Join(Split(s, c), [c]) == s
  {
    if s != [] {
      var rest := Split(s[1..], c);
      JoinSplit(s[1..], c);
      if s[0] == c {
        assert Split(s, c)[1..] == rest;
      } else {
        var parts := Split(s, c);
        if |rest| == 1 {
          assert parts == [[s[0]] + rest[0]];
        } else {
          assert parts[1..] == rest[1..];
          assert Join(rest, [c]) == rest[0] + [c] + Join(rest[1..], [c]);
        }
      }
    }
  }

  /** A string without `c` splits into itself alone. */
  lemma {:induction false} SplitNoSeparator(s: string, c: char)
    requires forall i :: 0 <= i < |s| ==> s[i] != c
    ensures Split(s, c) == [s]
  {
    if s != [] {
      SplitNoSeparator(s[1..], c);
      assert [s[0]] + s[1..] == s;
    }
  }

  /** Splitting `a + [c] + b` where `a` has no `c`. */
  lemma {:induction false} SplitAfterPiece(a: string, c: char, b: string)
    requires forall i :: 0 <= i < |a| ==> a[i] != c
    ensures Split(a + [c] + b, c) == [a] + Split(b, c)
  {
    if a == [] {
      assert ([c] + b)[1..] == b;
    } else {
      assert (a + [c] + b)[1..] == a[1..] + [c] + b;
      SplitAfterPiece(a[1..], c, b);
      assert [a[0]] + a[1..] == a;
    }
  }

  /** The last piece of a split is empty exactly when the string ends with the separator. */
  lemma {:induction false} SplitLastEmpty(s: string, c: char)
    requires s != [] && s[|s| - 1] == c
    ensures Split(s, c)[|Split(s, c)| - 1] == ""
  {
    if |s| > 1 {
      SplitLastEmpty(s[1..], c);
    }
  }

  /**
    `s.splitlines()` for line feeds: the empty string has no lines and a final
    line feed does not open an empty last line.
  */
  function SplitLines(s: string): (lines: seq<string>)
    ensures forall i, j :: 0 <= i < |lines| && 0 <= j < |lines[i]| ==> lines[i][j] != '\n'
  {
    if s == [] then []
    else
      var p := Split(s, '\n');
      if s[|s| - 1] == '\n' then p[..|p| - 1] else p
  }

  /** Joining the lines with line feeds gives the text back, up to one final line feed. */
  lemma SplitLinesJoin(s: string)
    ensures Join(SplitLines(s), "\n") + (if s != [] && s[|s| - 1] == '\n' then "\n" else "") == s
  {
    JoinSplit(s, '\n');
    if s != [] && s[|s| - 1] == '\n' {
      var p := Split(s, '\n');
      SplitLastEmpty(s, '\n');
      var front := p[..|p| - 1];
      assert p == front + [""];
      JoinSnoc(front, "", "\n");
    }
  }

  // ---------------------------------------------------------------------------
  // decimal numbers

  function DigitChar(d: nat): (c: char)
    requires d < 10
    ensures IsDigit(c)
  {
    ('0' as int + d) as char
  }

  /** `str(n)` for a natural number. */
  function NatToString(n: nat): (s: string)
    ensures |s| >= 1 && AllDigits(s)
  {
    if n < 10 then [DigitChar(n)] else NatToString(n / 10) + [DigitChar(n % 10)]
  }

  function DigitsValue(s: string): nat
    requires AllDigits(s)
  {
    if s == [] then 0
    else DigitsValue(s[..|s| - 1]) * 10 + (s[|s| - 1] as int - '0' as int)
  }

  /** `int(s)` for a string without surrounding whitespace: an optional sign and decimal digits. */
  function ParseInt(s: string): (r: Option<int>)
  {
    if |s| > 1 && (s[0] == '+' || s[0] == '-') && AllDigits(s[1..]) then
      var v: int := DigitsValue(s[1..]); Some(if s[0] == '-' then -v else v)
    else if |s| > 0 && AllDigits(s) then Some(DigitsValue(s))
    else None
  }

  lemma {:induction false} DigitsValueNatToString(n: nat)
    ensures DigitsValue(NatToString(n)) == n
  {
    if n >= 10 {
      DigitsValueNatToString(n / 10);
      var s := NatToString(n);
      assert s[..|s| - 1] == NatToString(n / 10);
    }
  }

  /** Formatting a natural number and parsing it back gives the number. */
  lemma ParseIntNatToString(n: nat)
    ensures ParseInt(NatToString(n)) == Some(n)
  {
    DigitsValueNatToString(n);
  }
}
