/**
 * `sort.SliceStable(list, func(i, j) { return list[i].Lines > list[j].Lines })`:
 * a stable sort of the contributor list into non-increasing line counts.
 * It is specified by a functional insertion sort and carried out in place by
 * straight insertion on an array.
 */
module Sorting {

  /** One author and the number of lines credited to them. */
  datatype Contributor = Contributor(name: string, lines: nat)

  /** Non-increasing by line count: what the comparator `Lines > Lines` sorts into. */
  predicate SortedByLines(s: seq<Contributor>) {
    forall i, j :: 0 <= i < j < |s| ==> s[i].lines >= s[j].lines
  }

  /** `x` placed before the first element of `s` with strictly fewer lines. */
  function InsertByLines(x: Contributor, s: seq<Contributor>): seq<Contributor>
  {
    if s == [] then [x]
    else if s[0].lines < x.lines then [x] + s
    else [s[0]] + InsertByLines(x, s[1..])
  }

  /** Stable insertion sort: each element in turn inserted into the sorted prefix. */
  function SortByLines(s: seq<Contributor>): seq<Contributor>
  {
    if s == [] then [] else InsertByLines(s[|s| - 1], SortByLines(s[..|s| - 1]))
  }

  /** The elements of `s` that have exactly `v` lines, in their order in `s`. */
  function WithLines(s: seq<Contributor>, v: nat): seq<Contributor>
  {
    if s == [] then []
    else (if s[0].lines == v then [s[0]] else []) + WithLines(s[1..], v)
  }

  lemma {:induction false} WithLinesAppend(s: seq<Contributor>, t: seq<Contributor>, v: nat)
    ensures WithLines(s + t, v) == WithLines(s, v) + WithLines(t, v)
  {
    if s == [] {
      assert s + t == t;
    } else {
      var head := if s[0].lines == v then [s[0]] else [];
      assert (s + t)[0] == s[0] && (s + t)[1..] == s[1..] + t;
      assert WithLines(s + t, v) == head + WithLines(s[1..] + t, v);
      WithLinesAppend(s[1..], t, v);
      assert WithLines(s, v) == head + WithLines(s[1..], v);
    }
  }

  /** No element of `s` has `v` lines, so none is kept. */
  lemma {:induction false} NoneWithLines(s: seq<Contributor>, v: nat)
    requires forall k :: 0 <= k < |s| ==> s[k].lines < v
    ensures WithLines(s, v) == []
  {
    if s != [] { NoneWithLines(s[1..], v); }
  }

  /** Where the insertion lands when everything before `j` has at least `x.lines`. */
  lemma {:induction false} InsertByLinesAt(x: Contributor, s: seq<Contributor>, j: nat)
    requires j <= |s|
    requires forall k :: 0 <= k < j ==> s[k].lines >= x.lines
    requires j == |s| || s[j].lines < x.lines
    ensures InsertByLines(x, s) == s[..j] + [x] + s[j..]
  {
    if j == 0 {
      assert s[..0] + [x] + s[0..] == [x] + s;
    } else {
      InsertByLinesAt(x, s[1..], j - 1);
      assert s[..j] + [x] + s[j..] == [s[0]] + (s[1..][..j - 1] + [x] + s[1..][j - 1..]);
    }
  }

  /** Inserting adds `x` and nothing else. */
  lemma {:induction false} InsertByLinesElements(x: Contributor, s: seq<Contributor>)
    ensures multiset(InsertByLines(x, s)) == multiset(s) + multiset{x}
  {
    if s != [] && s[0].lines >= x.lines {
      InsertByLinesElements(x, s[1..]);
      assert s == [s[0]] + s[1..];
    }
  }

  /** Inserting into a sorted sequence keeps it sorted. */
  lemma {:induction false} InsertByLinesSorted(x: Contributor, s: seq<Contributor>)
    requires SortedByLines(s)
    ensures SortedByLines(InsertByLines(x, s))
  {
    if s != [] && s[0].lines >= x.lines {
      var r := InsertByLines(x, s[1..]);
      assert InsertByLines(x, s) == [s[0]] + r;
      InsertByLinesSorted(x, s[1..]);
      InsertByLinesBounded(x, s[1..], s[0].lines);
    }
  }

  /** Inserting an element no larger than a bound into elements no larger than it stays below it. */
  lemma {:induction false} InsertByLinesBounded(x: Contributor, s: seq<Contributor>, bound: nat)
    requires x.lines <= bound
    requires forall k :: 0 <= k < |s| ==> s[k].lines <= bound
    ensures forall k :: 0 <= k < |InsertByLines(x, s)| ==> InsertByLines(x, s)[k].lines <= bound
  {
    if s != [] && s[0].lines >= x.lines {
      InsertByLinesBounded(x, s[1..], bound);
      assert InsertByLines(x, s) == [s[0]] + InsertByLines(x, s[1..]);
    }
  }

  /** Inserting into a sorted sequence keeps equal counts in arrival order. */
  lemma {:induction false} InsertByLinesStable(x: Contributor, s: seq<Contributor>, v: nat)
    requires SortedByLines(s)
    ensures WithLines(InsertByLines(x, s), v) == WithLines(s + [x], v)
  {
    WithLinesAppend(s, [x], v);
    if s == [] {
    } else if s[0].lines < x.lines {
      WithLinesAppend([x], s, v);
      if x.lines == v { NoneWithLines(s, v); }
    } else {
      InsertByLinesStable(x, s[1..], v);
      WithLinesAppend(s[1..], [x], v);
      assert s == [s[0]] + s[1..];
      WithLinesAppend([s[0]], s[1..], v);
      WithLinesAppend([s[0]], InsertByLines(x, s[1..]), v);
    }
  }

  /**
   * The sort is a stable sort: its result is non-increasing by line count,
   * holds the same elements as many times, and keeps elements with equal
   * counts in their original relative order.
   */
  lemma {:induction false} SortByLinesCorrect(s: seq<Contributor>)
    ensures SortedByLines(SortByLines(s))
    ensures multiset(SortByLines(s)) == multiset(s)
    ensures forall v :: WithLines(SortByLines(s), v) == WithLines(s, v)
  {
    if s != [] {
      var init, x := s[..|s| - 1], s[|s| - 1];
      SortByLinesCorrect(init);
      InsertByLinesSorted(x, SortByLines(init));
      InsertByLinesElements(x, SortByLines(init));
      assert s == init + [x];
      forall v ensures WithLines(SortByLines(s), v) == WithLines(s, v) {
        InsertByLinesStable(x, SortByLines(init), v);
        WithLinesAppend(SortByLines(init), [x], v);
        WithLinesAppend(init, [x], v);
      }
    }
  }

  /** No two entries share a name. */
  predicate DistinctNames(s: seq<Contributor>) {
    forall i, j :: 0 <= i < j < |s| ==> s[i].name != s[j].name
  }

  lemma {:induction false} InsertByLinesDistinct(x: Contributor, s: seq<Contributor>)
    requires DistinctNames(s)
    requires forall k :: 0 <= k < |s| ==> s[k].name != x.name
    ensures DistinctNames(InsertByLines(x, s))
  {
    if s != [] && s[0].lines >= x.lines {
      var r := InsertByLines(x, s[1..]);
      InsertByLinesDistinct(x, s[1..]);
      InsertByLinesElements(x, s[1..]);
      forall k | 0 <= k < |r| ensures s[0].name != r[k].name {
        assert r[k] in multiset(r);
      }
    }
  }

  /** Sorting neither merges nor duplicates names. */
  lemma {:induction false} SortByLinesDistinct(s: seq<Contributor>)
    requires DistinctNames(s)
    ensures DistinctNames(SortByLines(s))
  {
    if s != [] {
      var init, x := s[..|s| - 1], s[|s| - 1];
      SortByLinesDistinct(init);
      SortByLinesCorrect(init);
      var sorted := SortByLines(init);
      forall k | 0 <= k < |sorted| ensures sorted[k].name != x.name {
        assert sorted[k] in multiset(init);
      }
      InsertByLinesDistinct(x, sorted);
    }
  }

  /**
   * One step of straight insertion: `a[i]` sinks past the elements of the
   * sorted prefix `a[..i]` that have strictly fewer lines.
   */
  method InsertLast(a: array<Contributor>, i: nat)
    requires i < a.Length
    requires SortedByLines(a[..i])
    modifies a
    ensures a[..i + 1] == InsertByLines(old(a[i]), old(a[..i]))
    ensures a[i + 1..] == old(a[i + 1..])
  {
    ghost var sorted := a[..i];
    ghost var tail := a[i + 1..];
    var x := a[i];
    var j := i;
    while j > 0 && a[j - 1].lines < x.lines
      invariant 0 <= j <= i
      invariant forall k :: 0 <= k < j ==> a[k] == sorted[k]
      invariant a[j] == x
      invariant forall k :: j < k <= i ==> a[k] == sorted[k - 1]
      invariant a[i + 1..] == tail
      invariant forall k :: j <= k < i ==> sorted[k].lines < x.lines
    {
      a[j - 1], a[j] := a[j], a[j - 1];
      j := j - 1;
    }
    InsertedAt(a[..i + 1], sorted, x, j);
    InsertByLinesAt(x, sorted, j);
  }

  /** The array after the loop of `InsertLast`, element by element, is `x` inserted at `j`. */
  lemma InsertedAt(b: seq<Contributor>, sorted: seq<Contributor>, x: Contributor, j: nat)
    requires |b| == |sorted| + 1 && j <= |sorted|
    requires forall k :: 0 <= k < j ==> b[k] == sorted[k]
    requires b[j] == x
    requires forall k :: j < k < |b| ==> b[k] == sorted[k - 1]
    ensures b == sorted[..j] + [x] + sorted[j..]
  {
  }

  /** The in-place sort: the array ends up holding the stable sort of its contents. */
  method SortInPlace(a: array<Contributor>)
    modifies a
    ensures a[..] == SortByLines(old(a[..]))
  {
    ghost var input := a[..];
    var i := 0;
    while i < a.Length
      invariant 0 <= i <= a.Length
      invariant a[..i] == SortByLines(input[..i])
      invariant a[i..] == input[i..]
    {
      SortByLinesCorrect(input[..i]);
      assert input[..i + 1][..i] == input[..i];
      InsertLast(a, i);
      i := i + 1;
    }
    assert input[..a.Length] == input;
  }
}
