/** Searching, splitting and joining sequences, as `indexOf`, `includes`,
    `startsWith` and `split` do on JavaScript strings and Node buffers. */
module Seqs {
  import opened Wrappers

  /** `pat` occurs in `s` starting at index `i`. */
  predicate OccursAt<T(==)>(s: seq<T>, pat: seq<T>, i: nat)
  {
    i + |pat| <= |s| && s[i..i + |pat|] == pat
  }

  /** `t` is a prefix of `s` (`startsWith`). */
  predicate IsPrefix<T(==)>(t: seq<T>, s: seq<T>)
  {
    |t| <= |s| && s[..|t|] == t
  }

  /** `t` is a suffix of `s`. */
  predicate IsSuffix<T(==)>(t: seq<T>, s: seq<T>)
  {
    |t| <= |s| && s[|s| - |t|..] == t
  }

  /** The first index at or after `from` where `pat` occurs in `s`. */
  function IndexOfFrom<T(==)>(s: seq<T>, pat: seq<T>, from: nat): (r: Option<nat>)
    requires from <= |s|
    ensures r.Some? ==> from <= r.value && OccursAt(s, pat, r.value)
    ensures r.Some? ==> forall j :: from <= j < r.value ==> !OccursAt(s, pat, j)
    ensures r.None? ==> forall j :: from <= j <= |s| ==> !OccursAt(s, pat, j)
    decreases |s| - from
  {
    if from + |pat| > |s| then None
    else if s[from..from + |pat|] == pat then Some(from)
    else if from == |s| then None
    else IndexOfFrom(s, pat, from + 1)
  }

  /** The first index where `pat` occurs in `s` (`indexOf`; `None` is its -1). */
  function IndexOf<T(==)>(s: seq<T>, pat: seq<T>): (r: Option<nat>)
    ensures r.Some? ==> OccursAt(s, pat, r.value)
    ensures r.Some? ==> forall j :: 0 <= j < r.value ==> !OccursAt(s, pat, j)
    ensures r.None? ==> forall j :: 0 <= j <= |s| ==> !OccursAt(s, pat, j)
  {
    IndexOfFrom(s, pat, 0)
  }

  /** `t` occurs somewhere in `s` (`includes`). */
  predicate Contains<T(==)>(s: seq<T>, t: seq<T>)
  {
    IndexOf(s, t).Some?
  }

  lemma ContainsIff<T>(s: seq<T>, t: seq<T>)
    ensures Contains(s, t) <==> exists i: nat :: i <= |s| && OccursAt(s, t, i)
  {
    if Contains(s, t) {
      assert OccursAt(s, t, IndexOf(s, t).value);
    }
  }

  /** Joins `parts` with `sep` between consecutive parts (`join`). */
  function Join<T>(parts: seq<seq<T>>, sep: seq<T>): seq<T>
    requires |parts| >= 1
  {
    if |parts| == 1 then parts[0] else parts[0] + sep + Join(parts[1..], sep)
  }

  lemma NoOccurrenceInPrefix<T>(s: seq<T>, pat: seq<T>, i: nat)
    requires |pat| > 0 && i <= |s|
    requires forall j :: 0 <= j < i ==> !OccursAt(s, pat, j)
    ensures IndexOf(s[..i], pat).None?
  {
    forall j | 0 <= j <= i && OccursAt(s[..i], pat, j)
      ensures false
    {
      assert s[..i][j..j + |pat|] == s[j..j + |pat|];
      assert OccursAt(s, pat, j);
    }
  }

  /** Splits `s` at every non-overlapping occurrence of `sep`, scanning from
      the left (`split` with a non-empty separator). */
  function Split<T(==)>(s: seq<T>, sep: seq<T>): (parts: seq<seq<T>>)
    requires |sep| > 0
    ensures |parts| >= 1
    decreases |s|
  {
    match IndexOf(s, sep)
    case None => [s]
    case Some(i) => [s[..i]] + Split(s[i + |sep|..], sep)
  }

  /** Joining the parts with the separator gives back the split text. */
  lemma {:induction false} SplitJoin<T>(s: seq<T>, sep: seq<T>)
    requires |sep| > 0
    ensures Join(Split(s, sep), sep) == s
    decreases |s|
  {
    match IndexOf(s, sep)
    case None =>
    case Some(i) =>
      var rest := Split(s[i + |sep|..], sep);
      SplitJoin(s[i + |sep|..], sep);
      var parts := [s[..i]] + rest;
      assert parts[1..] == rest;
      assert Join(parts, sep) == s[..i] + sep + Join(rest, sep);
      assert s == s[..i] + sep + s[i + |sep|..];
  }

  /** No part of a split contains the separator. */
  lemma {:induction false} SplitPartsClean<T>(s: seq<T>, sep: seq<T>, k: nat)
    requires |sep| > 0 && k < |Split(s, sep)|
    ensures IndexOf(Split(s, sep)[k], sep).None?
    decreases |s|
  {
    match IndexOf(s, sep)
    case None =>
    case Some(i) =>
      if k == 0 {
        NoOccurrenceInPrefix(s, sep, i);
      } else {
        var rest := Split(s[i + |sep|..], sep);
        assert Split(s, sep)[k] == rest[k - 1];
        SplitPartsClean(s[i + |sep|..], sep, k - 1);
      }
  }

  /** The first occurrence is unique: an occurrence with none before it is what `IndexOf` finds. */
  lemma IndexOfFirst<T>(s: seq<T>, pat: seq<T>, i: nat)
    requires OccursAt(s, pat, i)
    requires forall j :: 0 <= j < i ==> !OccursAt(s, pat, j)
    ensures IndexOf(s, pat) == Some(i)
  {
  }

  /** Concatenation is associative. */
  lemma AppendAssoc<T>(xs: seq<T>, ys: seq<T>, zs: seq<T>)
    ensures xs + (ys + zs) == (xs + ys) + zs
  {
  }

  /** A suffix of a suffix is a suffix. */
  lemma SuffixTransitive<T>(a: seq<T>, b: seq<T>, c: seq<T>)
    requires IsSuffix(a, b) && IsSuffix(b, c)
    ensures IsSuffix(a, c)
  {
    assert c[|c| - |a|..] == c[|c| - |b|..][|b| - |a|..];
  }
}
