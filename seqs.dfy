/** Generic sequence operations that stand for the pandas and Python list
    operations the query engine is built from: boolean-mask selection
    (`df[mask]`), `drop_duplicates`, `pd.concat`, and `str.join` / `str.split`. */
module Seqs {

  datatype Option<+T> = None | Some(value: T)

  /** `df[mask]`: the elements satisfying `p`, in their original order. */
  function Filter<T(!new)>(s: seq<T>, p: T -> bool): (r: seq<T>)
    ensures |r| <= |s|
    ensures forall x :: x in r <==> x in s && p(x)
  {
    if s == [] then []
    else
      var init := s[..|s| - 1];
      assert s == init + [s[|s| - 1]];
      if p(s[|s| - 1]) then Filter(init, p) + [s[|s| - 1]] else Filter(init, p)
  }

  /** A mask keeps order and repeats: selecting from two runs one after the
      other is selecting from each and putting the selections one after the
      other. */
  lemma {:induction false} FilterSplits<T(!new)>(a: seq<T>, b: seq<T>, p: T -> bool)
    ensures Filter(a + b, p) == Filter(a, p) + Filter(b, p)
    decreases |b|
  {
    if b != [] {
      var init := b[..|b| - 1];
      assert b == init + [b[|b| - 1]];
      assert (a + b)[..|a + b| - 1] == a + init;
      FilterSplits(a, init, p);
    } else {
      assert a + b == a;
    }
  }

  /** Of one element a mask keeps the element itself or nothing. */
  lemma FilterOfSingleton<T(!new)>(x: T, p: T -> bool)
    ensures Filter([x], p) == if p(x) then [x] else []
  {
    assert [x][..0] == [];
  }

  ghost predicate NoDup<T>(s: seq<T>) {
    forall i, j :: 0 <= i < j < |s| ==> s[i] != s[j]
  }

  /** Position of the first occurrence of `x` in `s`. */
  function FirstIndex<T(==)>(s: seq<T>, x: T): (i: nat)
    requires x in s
    ensures i < |s| && s[i] == x && x !in s[..i]
  {
    if s[0] == x then 0
    else
      assert s == [s[0]] + s[1..];
      var k := FirstIndex(s[1..], x);
      assert s[..k + 1] == [s[0]] + s[1..][..k];
      k + 1
  }

  lemma FirstIndexUnique<T>(s: seq<T>, x: T, k: nat)
    requires k < |s| && s[k] == x && x !in s[..k]
    ensures FirstIndex(s, x) == k
  {
  }

  /** The first occurrence is at or before any occurrence. */
  lemma FirstIndexAtMost<T>(s: seq<T>, x: T, k: nat)
    requires k < |s| && s[k] == x
    ensures FirstIndex(s, x) <= k
  {
    if s[0] != x {
      FirstIndexAtMost(s[1..], x, k - 1);
    }
  }

  /** `drop_duplicates()`: keeps the first occurrence of every value. */
  function Dedup<T(==,!new)>(s: seq<T>): (r: seq<T>)
    ensures forall x :: x in r <==> x in s
    ensures NoDup(r)
  {
    if s == [] then []
    else
      var init := s[..|s| - 1];
      assert s == init + [s[|s| - 1]];
      if s[|s| - 1] in init then Dedup(init) else Dedup(init) + [s[|s| - 1]]
  }

  /** `drop_duplicates()` keeps the order of first appearance: of two kept
      values, the one whose first occurrence in the input is earlier comes
      first. */
  lemma {:induction false} DedupKeepsFirstAppearanceOrder<T(!new)>(s: seq<T>, i: nat, j: nat)
    requires i < j < |Dedup(s)|
    ensures FirstIndex(s, Dedup(s)[i]) < FirstIndex(s, Dedup(s)[j])
  {
    var n := |s|;
    var init := s[..n - 1];
    assert s == init + [s[n - 1]];
    var d := Dedup(init);
    forall y | y in init ensures FirstIndex(s, y) == FirstIndex(init, y) {
      var f := FirstIndex(init, y);
      assert s[..f] == init[..f];
      FirstIndexUnique(s, y, f);
    }
    if s[n - 1] in init {
      DedupKeepsFirstAppearanceOrder(init, i, j);
    } else if j < |d| {
      DedupKeepsFirstAppearanceOrder(init, i, j);
    } else {
      assert Dedup(s)[j] == s[n - 1];
      assert s[n - 1] !in s[..n - 1];
      FirstIndexUnique(s, s[n - 1], n - 1);
      assert Dedup(s)[i] == d[i] && d[i] in init;
    }
  }

  /** Without repeated values, `drop_duplicates()` changes nothing. */
  lemma {:induction false} DedupOfDistinct<T(!new)>(s: seq<T>)
    requires NoDup(s)
    ensures Dedup(s) == s
  {
    if s != [] {
      var init := s[..|s| - 1];
      assert s == init + [s[|s| - 1]];
      assert NoDup(init);
      DedupOfDistinct(init);
      assert s[|s| - 1] !in init;
    }
  }

  /** `pd.concat`: the parts one after another. */
  function Flatten<T(!new)>(parts: seq<seq<T>>): (r: seq<T>)
    ensures forall x :: x in r <==> exists k :: 0 <= k < |parts| && x in parts[k]
  {
    if parts == [] then []
    else
      var r := parts[0] + Flatten(parts[1..]);
      assert forall k :: 1 <= k < |parts| ==> parts[k] == parts[1..][k - 1];
      r
  }

  /** Leaving out empty parts does not change the concatenation. */
  lemma {:induction false} FlattenSkipsEmpty<T(!new)>(parts: seq<seq<T>>)
    ensures Flatten(Filter(parts, NonEmpty)) == Flatten(parts)
  {
    if parts != [] {
      var init := parts[..|parts| - 1];
      var last := parts[|parts| - 1];
      assert parts == init + [last];
      FlattenSkipsEmpty(init);
      FlattenAppend(init, [last]);
      if NonEmpty(last) {
        FlattenAppend(Filter(init, NonEmpty), [last]);
      }
    }
  }

  lemma {:induction false} FlattenAppend<T(!new)>(a: seq<seq<T>>, b: seq<seq<T>>)
    ensures Flatten(a + b) == Flatten(a) + Flatten(b)
  {
    if a == [] {
      assert a + b == b;
    } else {
      assert (a + b)[0] == a[0];
      assert (a + b)[1..] == a[1..] + b;
      FlattenAppend(a[1..], b);
    }
  }

  function NonEmpty<T>(s: seq<T>): bool { s != [] }

  /** Python's `sep.join(parts)`. */
  function JoinWith<T>(parts: seq<seq<T>>, sep: seq<T>): seq<T> {
    if |parts| == 0 then []
    else if |parts| == 1 then parts[0]
    else parts[0] + sep + JoinWith(parts[1..], sep)
  }

  /** Python's `s.split(sep)` for a one-element separator: the pieces between
      the separators, always at least one. */
  function SplitOn<T(==)>(s: seq<T>, sep: T): (r: seq<seq<T>>)
    ensures |r| > 0
    decreases |s|
  {
    if sep !in s then [s]
    else
      var i := FirstIndex(s, sep);
      [s[..i]] + SplitOn(s[i + 1..], sep)
  }

  /** Joining at a separator the parts do not contain and splitting again
      gives the parts back. */
  lemma {:induction false} SplitJoinRoundTrip<T>(parts: seq<seq<T>>, sep: T)
    requires |parts| > 0
    requires forall k :: 0 <= k < |parts| ==> sep !in parts[k]
    ensures SplitOn(JoinWith(parts, [sep]), sep) == parts
  {
    if |parts| > 1 {
      var s := JoinWith(parts, [sep]);
      var rest := JoinWith(parts[1..], [sep]);
      assert s == parts[0] + [sep] + rest;
      assert s[|parts[0]|] == sep;
      assert s[..|parts[0]|] == parts[0];
      FirstIndexUnique(s, sep, |parts[0]|);
      assert s[|parts[0]| + 1..] == rest;
      SplitJoinRoundTrip(parts[1..], sep);
    }
  }

  /** Splitting and joining again at the same separator gives the input back. */
  lemma {:induction false} JoinSplitRoundTrip<T>(s: seq<T>, sep: T)
    ensures JoinWith(SplitOn(s, sep), [sep]) == s
    decreases |s|
  {
    if sep in s {
      var i := FirstIndex(s, sep);
      JoinSplitRoundTrip(s[i + 1..], sep);
      assert s == s[..i] + [sep] + s[i + 1..];
    }
  }

  /** Joining two non-empty runs of parts: the separator appears once between them. */
  lemma {:induction false} JoinWithAppend<T>(a: seq<seq<T>>, b: seq<seq<T>>, sep: seq<T>)
    requires |a| > 0 && |b| > 0
    ensures JoinWith(a + b, sep) == JoinWith(a, sep) + sep + JoinWith(b, sep)
  {
    if |a| > 1 {
      assert (a + b)[1..] == a[1..] + b;
      JoinWithAppend(a[1..], b, sep);
    }
  }
}
