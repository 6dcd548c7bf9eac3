/**
  Field resolver (`find_col`) and the sheet-title normaliser (`normalize_name`).
  Column names are matched case-insensitively, first exactly and then by
  substring, so small drifts in spreadsheet headers still resolve.
*/
module FieldResolver {
  import opened Wrappers
  import opened Strings
  import opened Records

  // ---------------------------------------------------------------------------
  // normalize_name

  /** `re.sub(r"\s+", " ", s)`: every whitespace run becomes one space. */
  function CollapseSpace(s: string): string
    decreases |s|
  {
    if s == [] then []
    else if IsSpace(s[0]) then " " + CollapseSpace(s[SpanLeft(s)..])
    else [s[0]] + CollapseSpace(s[1..])
  }

  /** `re.sub(r"\s+", " ", name.strip().lower())` */
  function NormalizeName(name: string): string {
    CollapseSpace(Lower(Strip(name)))
  }

  predicate NoUpper(s: string) {
    forall i :: 0 <= i < |s| ==> !('A' <= s[i] <= 'Z')
  }

  /** The only whitespace is single spaces. */
  predicate SingleSpaced(s: string) {
    && (forall i :: 0 <= i < |s| && IsSpace(s[i]) ==> s[i] == ' ')
    && (forall i :: 0 <= i < |s| - 1 ==> !(s[i] == ' ' && s[i + 1] == ' '))
  }

  /** What a normalised title looks like. */
  predicate Normalized(s: string) {
    && SingleSpaced(s)
    && NoUpper(s)
    && (s == [] || (!IsSpace(s[0]) && !IsSpace(s[|s| - 1])))
  }

  lemma {:induction false} CollapseSpaceForm(s: string)
    ensures var r := CollapseSpace(s);
      && SingleSpaced(r)
      && (|r| == 0 <==> |s| == 0)
      && (|r| > 0 ==> (IsSpace(r[0]) <==> IsSpace(s[0])))
      && (|r| > 0 ==> (IsSpace(r[|r| - 1]) <==> IsSpace(s[|s| - 1])))
      && (NoUpper(s) ==> NoUpper(r))
    decreases |s|
  {
    if s != [] {
      var r := CollapseSpace(s);
      if IsSpace(s[0]) {
        var n := SpanLeft(s);
        var t := s[n..];
        CollapseSpaceForm(t);
        var rt := CollapseSpace(t);
        assert r == " " + rt;
        if t == [] {
          assert IsSpace(s[|s| - 1]);
        } else {
          assert t[|t| - 1] == s[|s| - 1];
          assert !IsSpace(rt[0]);
        }
        assert NoUpper(s) ==> NoUpper(t) by {
          if NoUpper(s) {
            forall i | 0 <= i < |t| ensures !('A' <= t[i] <= 'Z') {
              assert t[i] == s[n + i];
            }
          }
        }
      } else {
        var t := s[1..];
        CollapseSpaceForm(t);
        var rt := CollapseSpace(t);
        assert r == [s[0]] + rt;
        if t != [] {
          assert t[|t| - 1] == s[|s| - 1];
        }
      }
    }
  }

  lemma {:induction false} CollapseSpaceNoop(s: string)
    requires SingleSpaced(s)
    ensures CollapseSpace(s) == s
    decreases |s|
  {
    if s != [] {
      assert SingleSpaced(s[1..]);
      CollapseSpaceNoop(s[1..]);
      if IsSpace(s[0]) {
        assert SpanLeft(s) == 1;
      }
      assert [s[0]] + s[1..] == s;
    }
  }

  lemma LowerForm(s: string)
    ensures |Lower(s)| == |s| && NoUpper(Lower(s))
    ensures forall i :: 0 <= i < |s| ==> (IsSpace(Lower(s)[i]) <==> IsSpace(s[i]))
  {
  }

  lemma LowerNoUpper(s: string)
    requires NoUpper(s)
    ensures Lower(s) == s
  {
  }

  /** A normalised title is lower-case, single-spaced and has no space at either end. */
  lemma NormalizeNameForm(name: string)
    ensures Normalized(NormalizeName(name))
  {
    var t := Strip(name);
    var l := Lower(t);
    LowerForm(t);
    CollapseSpaceForm(l);
  }

  /** A title already in normal form is left alone. */
  lemma NormalizedFixed(s: string)
    requires Normalized(s)
    ensures NormalizeName(s) == s
  {
    StripNoop(s);
    LowerNoUpper(s);
    CollapseSpaceNoop(s);
  }

  lemma NormalizeNameIdempotent(name: string)
    ensures NormalizeName(NormalizeName(name)) == NormalizeName(name)
  {
    NormalizeNameForm(name);
    NormalizedFixed(NormalizeName(name));
  }

  // ---------------------------------------------------------------------------
  // find_col
  //
  // The search functions carry only bounds in their contracts; what they find
  // is stated by the lemmas after them. The formatters resolve many columns per
  // record, and keeping quantifiers out of these contracts keeps their proofs small.

  /**
    `lower_map[l]` for `lower_map = {k.lower(): k for k in entry.keys()}`: the
    position of the LAST key whose lower-case form is `l`.
  */
  function LastWithLower(r: Record, l: string): (o: Option<nat>)
    ensures o.Some? ==> o.value < |r|
  {
    if |r| == 0 then None
    else if Lower(r[|r| - 1].key) == l then Some(|r| - 1)
    else LastWithLower(r[..|r| - 1], l)
  }

  lemma {:induction false} LastWithLowerSpec(r: Record, l: string)
    ensures var o := LastWithLower(r, l);
      && (o.Some? ==> Lower(r[o.value].key) == l)
      && (o.Some? ==> forall j :: o.value < j < |r| ==> Lower(r[j].key) != l)
      && (o.None? ==> forall j :: 0 <= j < |r| ==> Lower(r[j].key) != l)
  {
    if |r| > 0 && Lower(r[|r| - 1].key) != l {
      var front := r[..|r| - 1];
      LastWithLowerSpec(front, l);
      assert forall j :: 0 <= j < |front| ==> front[j] == r[j];
    }
  }

  /** `p.lower() in lower_map` */
  predicate ExactKey(r: Record, p: string) {
    exists j :: 0 <= j < |r| && Lower(r[j].key) == Lower(p)
  }

  lemma ExactKeyLast(r: Record, p: string)
    ensures ExactKey(r, p) <==> LastWithLower(r, Lower(p)).Some?
  {
    LastWithLowerSpec(r, Lower(p));
  }

  /** The first candidate from position `i` on that some key equals case-insensitively. */
  function FirstExactFrom(r: Record, cands: seq<string>, i: nat): (o: Option<nat>)
    requires i <= |cands|
    ensures o.Some? ==> i <= o.value < |cands| && LastWithLower(r, Lower(cands[o.value])).Some?
    decreases |cands| - i
  {
    if i == |cands| then None
    else if LastWithLower(r, Lower(cands[i])).Some? then Some(i)
    else FirstExactFrom(r, cands, i + 1)
  }

  lemma {:induction false} FirstExactFromSpec(r: Record, cands: seq<string>, i: nat)
    requires i <= |cands|
    ensures var o := FirstExactFrom(r, cands, i);
      && (o.Some? ==> ExactKey(r, cands[o.value]))
      && (o.Some? ==> forall i' :: i <= i' < o.value ==> !ExactKey(r, cands[i']))
      && (o.None? ==> forall i' :: i <= i' < |cands| ==> !ExactKey(r, cands[i']))
    decreases |cands| - i
  {
    if i < |cands| {
      ExactKeyLast(r, cands[i]);
      if LastWithLower(r, Lower(cands[i])).None? {
        FirstExactFromSpec(r, cands, i + 1);
      }
    }
  }

  /** `any(p.lower() in kl for p in possible)` */
  predicate SomeCandidateIn(kl: string, cands: seq<string>) {
    exists i :: 0 <= i < |cands| && Contains(kl, Lower(cands[i]))
  }

  /** The first key from position `j` on whose lower-case form contains some candidate. */
  function FirstContainingFrom(r: Record, cands: seq<string>, j: nat): (o: Option<nat>)
    requires j <= |r|
    ensures o.Some? ==> j <= o.value < |r|
    decreases |r| - j
  {
    if j == |r| then None
    else if SomeCandidateIn(Lower(r[j].key), cands) then Some(j)
    else FirstContainingFrom(r, cands, j + 1)
  }

  lemma {:induction false} FirstContainingFromSpec(r: Record, cands: seq<string>, j: nat)
    requires j <= |r|
    ensures var o := FirstContainingFrom(r, cands, j);
      && (o.Some? ==> SomeCandidateIn(Lower(r[o.value].key), cands))
      && (o.Some? ==> forall j' :: j <= j' < o.value ==> !SomeCandidateIn(Lower(r[j'].key), cands))
      && (o.None? ==> forall j' :: j <= j' < |r| ==> !SomeCandidateIn(Lower(r[j'].key), cands))
    decreases |r| - j
  {
    if j < |r| && !SomeCandidateIn(Lower(r[j].key), cands) {
      FirstContainingFromSpec(r, cands, j + 1);
    }
  }

  /** `find_col(entry, possible)`: the name of the matching column, if any. */
  function FindCol(r: Record, cands: seq<string>): (o: Option<string>)
    ensures o.Some? ==> HasKey(r, o.value)
  {
    match FirstExactFrom(r, cands, 0)
    case Some(i) =>
      var j := LastWithLower(r, Lower(cands[i])).value;
      Some(r[j].key)
    case None =>
      match FirstContainingFrom(r, cands, 0)
      case Some(j) =>
        Some(r[j].key)
      case None => None
  }

  /**
    Tier one: when `cands[i]` is the first candidate some key equals
    case-insensitively, the result is a key spelled like it, and among the keys
    spelled like it the last one. This holds whatever other keys merely contain a
    candidate.
  */
  lemma FindColExact(r: Record, cands: seq<string>, i: nat)
    requires i < |cands| && ExactKey(r, cands[i])
    requires forall i' :: 0 <= i' < i ==> !ExactKey(r, cands[i'])
    ensures var o := FindCol(r, cands);
      && o.Some?
      && Lower(o.value) == Lower(cands[i])
      && exists j :: 0 <= j < |r| && r[j].key == o.value &&
           forall j' :: j < j' < |r| ==> Lower(r[j'].key) != Lower(cands[i])
  {
    FirstExactFromSpec(r, cands, 0);
    var f := FirstExactFrom(r, cands, 0);
    assert f == Some(i);
    LastWithLowerSpec(r, Lower(cands[i]));
    var j := LastWithLower(r, Lower(cands[i])).value;
    assert FindCol(r, cands) == Some(r[j].key);
  }

  /**
    Tier two: when no candidate equals any key, the result is the first key, in
    record order, that contains a candidate.
  */
  lemma FindColSubstring(r: Record, cands: seq<string>, j: nat)
    requires forall i :: 0 <= i < |cands| ==> !ExactKey(r, cands[i])
    requires j < |r| && SomeCandidateIn(Lower(r[j].key), cands)
    requires forall j' :: 0 <= j' < j ==> !SomeCandidateIn(Lower(r[j'].key), cands)
    ensures FindCol(r, cands) == Some(r[j].key)
  {
    FirstExactFromSpec(r, cands, 0);
    assert FirstExactFrom(r, cands, 0).None?;
    FirstContainingFromSpec(r, cands, 0);
    var g := FirstContainingFrom(r, cands, 0);
    assert g.Some?;
    assert g.value == j;
  }

  /** An exact match is also a substring match. */
  lemma ExactKeyContains(r: Record, cands: seq<string>, i: nat, j: nat)
    requires i < |cands| && j < |r| && Lower(r[j].key) == Lower(cands[i])
    ensures SomeCandidateIn(Lower(r[j].key), cands)
  {
    ContainsSelf(Lower(cands[i]));
  }

  /** Tier three: there is no result exactly when no key contains any candidate. */
  lemma FindColNone(r: Record, cands: seq<string>)
    ensures FindCol(r, cands).None? <==>
      forall j :: 0 <= j < |r| ==> !SomeCandidateIn(Lower(r[j].key), cands)
  {
    FirstContainingFromSpec(r, cands, 0);
    var f := FirstExactFrom(r, cands, 0);
    if f.Some? {
      var l := Lower(cands[f.value]);
      LastWithLowerSpec(r, l);
      var j := LastWithLower(r, l).value;
      ExactKeyContains(r, cands, f.value, j);
    }
  }

  /**
    A column literally named "Title", with no other column spelled "title" in
    any case, is what `["title", "题目"]` resolves to, even when other column
    names contain "title".
  */
  lemma FindColTitle(r: Record, j: nat)
    requires j < |r| && r[j].key == "Title"
    requires forall j' :: 0 <= j' < |r| && j' != j ==> Lower(r[j'].key) != "title"
    ensures FindCol(r, ["title", "题目"]) == Some("Title")
  {
    var cands := ["title", "题目"];
    assert Lower("Title") == "title";
    assert Lower(cands[0]) == "title";
    assert ExactKey(r, cands[0]);
    FindColExact(r, cands, 0);
  }

  // ---------------------------------------------------------------------------
  // Reading a resolved column

  /** `r.get(find_col(r, cands) or "", "").strip()` */
  function Resolved(r: Record, cands: seq<string>): (v: string)
    ensures v == [] || (!IsSpace(v[0]) && !IsSpace(v[|v| - 1]))
  {
    Strip(Get(r, FindCol(r, cands).GetOr("")))
  }

  /** `r.get(key, "").strip() if key else ""` for `key = find_col(r, cands) or ""`. */
  function ResolvedIfKey(r: Record, cands: seq<string>): (v: string)
    ensures v == [] || (!IsSpace(v[0]) && !IsSpace(v[|v| - 1]))
  {
    var key := FindCol(r, cands).GetOr("");
    if key == "" then "" else Strip(Get(r, key))
  }

  /**
    The two ways of reading a column differ only for a record with an empty
    column name, which the row extractor never produces.
  */
  lemma ResolvedIfKeyAgrees(r: Record, cands: seq<string>)
    requires !HasKey(r, "")
    ensures ResolvedIfKey(r, cands) == Resolved(r, cands)
  {
    var o := FindCol(r, cands);
    if o.None? {
      GetMissing(r, "");
      StripEmpty("");
    }
  }

  /** With no matching column both read as empty. */
  lemma ResolvedMissing(r: Record, cands: seq<string>)
    requires !HasKey(r, "")
    requires forall j :: 0 <= j < |r| ==> !SomeCandidateIn(Lower(r[j].key), cands)
    ensures Resolved(r, cands) == "" && ResolvedIfKey(r, cands) == ""
  {
    FindColNone(r, cands);
    GetMissing(r, "");
    assert Strip("") == "";
  }
}
