/**
  A row record: the Python `Dict[str, str]` built per spreadsheet row, kept as
  its insertion-ordered list of key/value pairs.
*/
module Records {
  import opened Wrappers

  datatype Field = Field(key: string, value: string)

  type Record = seq<Field>

  /** `list(r.keys())`, in insertion order. */
  function Keys(r: Record): (ks: seq<string>)
    ensures |ks| == |r| && forall i {:trigger ks[i]} :: 0 <= i < |r| ==> ks[i] == r[i].key
  {
    seq(|r|, i requires 0 <= i < |r| => r[i].key)
  }

  /** `list(r.values())`, in insertion order. */
  function Values(r: Record): (vs: seq<string>)
    ensures |vs| == |r| && forall i {:trigger vs[i]} :: 0 <= i < |r| ==> vs[i] == r[i].value
  {
    seq(|r|, i requires 0 <= i < |r| => r[i].value)
  }

  /** What every dict satisfies: no key appears twice. */
  predicate DistinctKeys(r: Record) {
    forall i, j :: 0 <= i < j < |r| ==> r[i].key != r[j].key
  }

  /** `k in r` */
  predicate HasKey(r: Record, k: string) {
    exists j :: 0 <= j < |r| && r[j].key == k
  }

  lemma HasKeyKeys(r: Record, k: string)
    ensures HasKey(r, k) <==> k in Keys(r)
  {
    if HasKey(r, k) {
      var j :| 0 <= j < |r| && r[j].key == k;
      assert Keys(r)[j] == k;
    }
  }

  /** The position of key `k`, if present. */
  function IndexOf(r: Record, k: string): (o: Option<nat>)
    ensures o.Some? ==> o.value < |r| && r[o.value].key == k
  {
    if |r| == 0 then None
    else if r[0].key == k then Some(0)
    else
      match IndexOf(r[1..], k)
      case Some(i) => Some(i + 1)
      case None => None
  }

  /** IndexOf finds the first position holding `k`, and nothing when `k` is absent. */
  lemma {:induction false} IndexOfSpec(r: Record, k: string)
    ensures var o := IndexOf(r, k);
      && (o.Some? ==> forall j :: 0 <= j < o.value ==> r[j].key != k)
      && (o.None? <==> !HasKey(r, k))
  {
    if |r| > 0 && r[0].key != k {
      IndexOfSpec(r[1..], k);
      assert forall j :: 1 <= j < |r| ==> r[j] == r[1..][j - 1];
      if HasKey(r, k) {
        var j :| 0 <= j < |r| && r[j].key == k;
        assert r[1..][j - 1].key == k;
      }
    }
  }

  /** `r[k]` when `k in r`. */
  function Lookup(r: Record, k: string): Option<string> {
    match IndexOf(r, k)
    case Some(i) => Some(r[i].value)
    case None => None
  }

  /** `r.get(k, "")` */
  function Get(r: Record, k: string): string {
    Lookup(r, k).GetOr("")
  }

  /** The first position holding `k` is what IndexOf finds. */
  lemma IndexOfIs(r: Record, k: string, i: nat)
    requires i < |r| && r[i].key == k
    requires forall j :: 0 <= j < i ==> r[j].key != k
    ensures IndexOf(r, k) == Some(i)
  {
    IndexOfSpec(r, k);
    assert HasKey(r, k);
  }

  /** A missing key reads as "". */
  lemma GetMissing(r: Record, k: string)
    requires !HasKey(r, k)
    ensures Get(r, k) == ""
  {
    IndexOfSpec(r, k);
  }

  /**
    `r[k] = v`: an existing key keeps its position and takes the new value,
    a new key goes at the end.
  */
  function Put(r: Record, k: string, v: string): Record {
    match IndexOf(r, k)
    case Some(i) => r[i := Field(k, v)]
    case None => r + [Field(k, v)]
  }

  /** Assignment keeps the keys distinct and adds `k` to the keys only when it is new. */
  lemma PutKeys(r: Record, k: string, v: string)
    ensures DistinctKeys(r) ==> DistinctKeys(Put(r, k, v))
    ensures Keys(Put(r, k, v)) == if HasKey(r, k) then Keys(r) else Keys(r) + [k]
  {
    IndexOfSpec(r, k);
    match IndexOf(r, k)
    case Some(i) =>
      assert Keys(Put(r, k, v)) == Keys(r);
    case None =>
      assert Keys(Put(r, k, v)) == Keys(r) + [k];
  }

  /** After `r[k] = v`, `k` maps to `v`. */
  lemma PutLookup(r: Record, k: string, v: string)
    ensures Lookup(Put(r, k, v), k) == Some(v)
  {
    IndexOfSpec(r, k);
    match IndexOf(r, k)
    case Some(i) =>
      IndexOfIs(Put(r, k, v), k, i);
    case None =>
      IndexOfIs(Put(r, k, v), k, |r|);
  }

  /** `r[k] = v` leaves every other key's value alone. */
  lemma LookupPutOther(r: Record, k: string, v: string, k': string)
    requires DistinctKeys(r) && k' != k
    ensures Lookup(Put(r, k, v), k') == Lookup(r, k')
  {
    match IndexOf(r, k)
    case Some(i) =>
      LookupSameKeys(r, Put(r, k, v), k');
    case None =>
      IndexOfSnoc(r, Field(k, v), k');
  }

  lemma {:induction false} IndexOfSnoc(r: Record, f: Field, k: string)
    requires f.key != k
    ensures IndexOf(r + [f], k) == IndexOf(r, k)
  {
    if |r| == 0 {
      assert IndexOf([f][1..], k) == None;
    } else if r[0].key != k {
      assert (r + [f])[1..] == r[1..] + [f];
      IndexOfSnoc(r[1..], f, k);
    }
  }

  /** Two records that differ only in values at a key other than `k` look `k` up alike. */
  lemma LookupSameKeys(r: Record, r': Record, k: string)
    requires |r| == |r'|
    requires forall j :: 0 <= j < |r| ==> r'[j].key == r[j].key
    requires forall j :: 0 <= j < |r| && r[j].key == k ==> r'[j] == r[j]
    ensures Lookup(r', k) == Lookup(r, k)
  {
    IndexOfSpec(r, k);
    IndexOfSpec(r', k);
    var o := IndexOf(r, k);
    if o.Some? {
      IndexOfIs(r', k, o.value);
    }
  }

  // ---------------------------------------------------------------------------
  // Assigning a run of keys in order

  /** The dict after `for k, v in zip(ks, vs): d[k] = v`, stopped after `n` steps, from `{}`. */
  function Assign(ks: seq<string>, vs: seq<string>, n: nat): Record
    requires n <= |ks| && n <= |vs|
  {
    if n == 0 then [] else Put(Assign(ks, vs, n - 1), ks[n - 1], vs[n - 1])
  }

  /** Step `n + 1` assigns `vs[n]` to `ks[n]`. */
  lemma AssignNext(ks: seq<string>, vs: seq<string>, n: nat)
    requires n < |ks| && n < |vs|
    ensures Assign(ks, vs, n + 1) == Put(Assign(ks, vs, n), ks[n], vs[n])
  {
  }

  /** `xs` without repeats, each kept at its first position. */
  function Dedup(xs: seq<string>): seq<string> {
    if |xs| == 0 then []
    else
      var front := Dedup(xs[..|xs| - 1]);
      if xs[|xs| - 1] in front then front else front + [xs[|xs| - 1]]
  }

  /** Deduplication keeps every name and adds none. */
  lemma {:induction false} DedupMembers(xs: seq<string>)
    ensures forall x :: x in Dedup(xs) <==> x in xs
  {
    if |xs| > 0 {
      DedupMembers(xs[..|xs| - 1]);
      assert xs == xs[..|xs| - 1] + [xs[|xs| - 1]];
    }
  }

  /** Assigning `n` keys leaves them distinct, one per name, first seen first. */
  lemma {:induction false} AssignKeys(ks: seq<string>, vs: seq<string>, n: nat)
    requires n <= |ks| && n <= |vs|
    ensures DistinctKeys(Assign(ks, vs, n)) && Keys(Assign(ks, vs, n)) == Dedup(ks[..n])
  {
    if n > 0 {
      AssignKeys(ks, vs, n - 1);
      var prev := Assign(ks, vs, n - 1);
      PutKeys(prev, ks[n - 1], vs[n - 1]);
      HasKeyKeys(prev, ks[n - 1]);
      var front := ks[..n];
      assert front[..n - 1] == ks[..n - 1];
      assert front[n - 1] == ks[n - 1];
    }
  }

  /** A key not assigned again later keeps the value given with it. */
  lemma {:induction false} AssignLookup(ks: seq<string>, vs: seq<string>, n: nat, i: nat)
    requires i < n <= |ks| && n <= |vs|
    requires forall j :: i < j < n ==> ks[j] != ks[i]
    ensures Lookup(Assign(ks, vs, n), ks[i]) == Some(vs[i])
  {
    if i == n - 1 {
      PutLookup(Assign(ks, vs, n - 1), ks[i], vs[i]);
    } else {
      AssignLookup(ks, vs, n - 1, i);
      AssignLookupEarlier(ks, vs, n, i);
    }
  }

  /** The last assignment, to another key, leaves the value of `ks[i]` alone. */
  lemma AssignLookupEarlier(ks: seq<string>, vs: seq<string>, n: nat, i: nat)
    requires i < n - 1 && n <= |ks| && n <= |vs|
    requires ks[n - 1] != ks[i]
    ensures Lookup(Assign(ks, vs, n), ks[i]) == Lookup(Assign(ks, vs, n - 1), ks[i])
  {
    AssignKeys(ks, vs, n - 1);
    LookupPutOther(Assign(ks, vs, n - 1), ks[n - 1], vs[n - 1], ks[i]);
  }

  /** Without repeats, deduplication changes nothing. */
  lemma {:induction false} DedupDistinct(xs: seq<string>)
    requires forall i, j :: 0 <= i < j < |xs| ==> xs[i] != xs[j]
    ensures Dedup(xs) == xs
  {
    if |xs| > 0 {
      var front := xs[..|xs| - 1];
      DedupDistinct(front);
      assert xs[|xs| - 1] !in front;
      assert front + [xs[|xs| - 1]] == xs;
    }
  }
}
