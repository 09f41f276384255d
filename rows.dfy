/** Table primitives shared by both store variants.

    A table is a sequence of rows in insertion (rowid) order. The SQL
    statements the handlers issue are expressed with these functions:
    `WHERE` is Filter, `UPDATE ... WHERE` is Update, `DELETE ... WHERE` is
    Filter on the negated condition, `ORDER BY key DESC` is Reverse (when the
    table is already ordered by the key) or SortDesc, `LIMIT 1` after an
    ordering is LastIndex or NewestIndex, and `.get()` without an ordering
    is FirstIndex. */
module Rows {

  datatype Option<T> = None | Some(value: T)

  /** The rows of `s` that satisfy `p`, in their original order. */
  function Filter<T>(s: seq<T>, p: T -> bool): (r: seq<T>)
    ensures |r| <= |s|
    decreases |s|
  {
    if s == [] then [] else (if p(s[0]) then [s[0]] else []) + Filter(s[1..], p)
  }

  lemma {:induction false} FilterMember<T>(s: seq<T>, p: T -> bool, x: T)
    ensures x in Filter(s, p) <==> x in s && p(x)
    decreases |s|
  {
    if s != [] {
      FilterMember(s[1..], p, x);
      assert s == [s[0]] + s[1..];
    }
  }

  lemma {:induction false} FilterAppend<T>(s: seq<T>, x: T, p: T -> bool)
    ensures Filter(s + [x], p) == Filter(s, p) + (if p(x) then [x] else [])
    decreases |s|
  {
    if s != [] {
      assert (s + [x])[1..] == s[1..] + [x];
      FilterAppend(s[1..], x, p);
    }
  }

  /** When every row satisfies the condition, filtering keeps the whole table. */
  lemma {:induction false} FilterKeepsAll<T>(s: seq<T>, p: T -> bool)
    requires forall k :: 0 <= k < |s| ==> p(s[k])
    ensures Filter(s, p) == s
    decreases |s|
  {
    if s != [] {
      FilterKeepsAll(s[1..], p);
    }
  }

  /** When no row satisfies the condition, the result is empty. */
  lemma {:induction false} FilterKeepsNone<T>(s: seq<T>, p: T -> bool)
    requires forall k :: 0 <= k < |s| ==> !p(s[k])
    ensures Filter(s, p) == []
    decreases |s|
  {
    if s != [] {
      FilterKeepsNone(s[1..], p);
    }
  }

  /** The rows an inner join keeps, projected: `f` gives the joined row of a
      row that has partners, and None for one that has none. */
  function FilterMap<T, U>(s: seq<T>, f: T -> Option<U>): (r: seq<U>)
    ensures |r| <= |s|
    decreases |s|
  {
    if s == [] then []
    else (match f(s[0]) case None => [] case Some(y) => [y]) + FilterMap(s[1..], f)
  }

  lemma {:induction false} FilterMapMember<T, U>(s: seq<T>, f: T -> Option<U>, y: U)
    ensures y in FilterMap(s, f) <==> exists x :: x in s && f(x) == Some(y)
    decreases |s|
  {
    if s != [] {
      FilterMapMember(s[1..], f, y);
      assert s == [s[0]] + s[1..];
      if f(s[0]) == Some(y) {
        assert s[0] in s;
      }
      if exists x :: x in s && f(x) == Some(y) {
        var x :| x in s && f(x) == Some(y);
        if x != s[0] {
          assert x in s[1..];
        }
      }
    }
  }

  /** The keys of `s` strictly increase along the sequence. */
  predicate Increasing<T>(s: seq<T>, key: T -> int)
  {
    forall i, j :: 0 <= i < j < |s| ==> key(s[i]) < key(s[j])
  }

  /** In a table whose keys increase, a key names at most one position. */
  lemma IncreasingKeyUnique<T>(s: seq<T>, key: T -> int, i: nat, j: nat)
    requires Increasing(s, key) && i < |s| && j < |s| && key(s[i]) == key(s[j])
    ensures i == j
  {
  }

  /** The keys of `s` strictly decrease along the sequence. */
  predicate Decreasing<T>(s: seq<T>, key: T -> int)
  {
    forall i, j :: 0 <= i < j < |s| ==> key(s[i]) > key(s[j])
  }

  /** The keys of `s` never increase along the sequence. */
  predicate NonIncreasing<T>(s: seq<T>, key: T -> int)
  {
    forall i, j :: 0 <= i < j < |s| ==> key(s[i]) >= key(s[j])
  }

  /** Every key in `s` lies below `bound`. */
  predicate AllBelow<T>(s: seq<T>, key: T -> int, bound: int)
  {
    forall k :: 0 <= k < |s| ==> key(s[k]) < bound
  }

  /** Filtering a table whose keys increase keeps them increasing. */
  lemma {:induction false} FilterIncreasing<T>(s: seq<T>, p: T -> bool, key: T -> int)
    requires Increasing(s, key)
    ensures Increasing(Filter(s, p), key)
    decreases |s|
  {
    if s != [] {
      var tail := Filter(s[1..], p);
      FilterIncreasing(s[1..], p, key);
      forall k | 0 <= k < |tail| ensures key(s[0]) < key(tail[k]) {
        FilterMember(s[1..], p, tail[k]);
        var m :| 0 <= m < |s[1..]| && s[1..][m] == tail[k];
        assert s[m + 1] == tail[k];
      }
    }
  }

  /** Appending a row with a fresh id keeps a table ordered and below the new counter. */
  lemma AppendFresh<T>(s: seq<T>, x: T, key: T -> int, bound: int)
    requires Increasing(s, key) && AllBelow(s, key, bound) && key(x) >= bound
    ensures Increasing(s + [x], key) && AllBelow(s + [x], key, key(x) + 1)
  {
  }

  /** Filtering keeps every key below a bound that the table's keys stay below. */
  lemma FilterAllBelow<T>(s: seq<T>, p: T -> bool, key: T -> int, bound: int)
    requires AllBelow(s, key, bound)
    ensures AllBelow(Filter(s, p), key, bound)
  {
    var r := Filter(s, p);
    forall k | 0 <= k < |r| ensures key(r[k]) < bound {
      FilterMember(s, p, r[k]);
    }
  }

  function Reverse<T>(s: seq<T>): (r: seq<T>)
    ensures |r| == |s|
    ensures forall k :: 0 <= k < |s| ==> r[k] == s[|s| - 1 - k]
    decreases |s|
  {
    if s == [] then [] else Reverse(s[1..]) + [s[0]]
  }

  lemma ReverseMember<T>(s: seq<T>, x: T)
    ensures x in Reverse(s) <==> x in s
  {
    var r := Reverse(s);
    if x in s {
      var k :| 0 <= k < |s| && s[k] == x;
      assert r[|s| - 1 - k] == x;
    }
  }

  /** Reversing a table ordered by increasing key lists it by decreasing key. */
  lemma ReverseDecreasing<T>(s: seq<T>, key: T -> int)
    requires Increasing(s, key)
    ensures Decreasing(Reverse(s), key)
  {
  }

  /** The first row satisfying `p`: what a `.get()` without ORDER BY returns. */
  function FirstIndex<T>(s: seq<T>, p: T -> bool): (r: Option<nat>)
    ensures r.None? <==> forall k :: 0 <= k < |s| ==> !p(s[k])
    ensures r.Some? ==> r.value < |s| && p(s[r.value])
    ensures r.Some? ==> forall k :: 0 <= k < r.value ==> !p(s[k])
    decreases |s|
  {
    if s == [] then None
    else if p(s[0]) then Some(0)
    else match FirstIndex(s[1..], p)
      case None => None
      case Some(k) => Some(k + 1)
  }

  /** The last row satisfying `p`. */
  function LastIndex<T>(s: seq<T>, p: T -> bool): (r: Option<nat>)
    ensures r.None? <==> forall k :: 0 <= k < |s| ==> !p(s[k])
    ensures r.Some? ==> r.value < |s| && p(s[r.value])
    ensures r.Some? ==> forall k :: r.value < k < |s| ==> !p(s[k])
    decreases |s|
  {
    if s == [] then None
    else if p(s[|s| - 1]) then Some(|s| - 1)
    else LastIndex(s[..|s| - 1], p)
  }

  /** On a table ordered by increasing key, the last row satisfying `p` is the
      one with the largest key among those rows: `ORDER BY key DESC LIMIT 1`. */
  lemma LastIndexHasLargestKey<T>(s: seq<T>, p: T -> bool, key: T -> int, k: nat)
    requires Increasing(s, key)
    requires k < |s| && p(s[k])
    ensures LastIndex(s, p).Some?
    ensures key(s[k]) <= key(s[LastIndex(s, p).value])
  {
  }

  /** Two tables on which the condition holds at the same positions have
      the same last matching position. */
  lemma LastIndexSamePattern<T>(s1: seq<T>, p1: T -> bool, s2: seq<T>, p2: T -> bool)
    requires |s1| == |s2|
    requires forall k :: 0 <= k < |s1| ==> p1(s1[k]) == p2(s2[k])
    ensures LastIndex(s1, p1) == LastIndex(s2, p2)
  {
  }

  /** The index of a row with the largest key among those satisfying `p`; of
      several such rows the last one inserted. */
  function NewestIndex<T>(s: seq<T>, p: T -> bool, key: T -> int): (r: Option<nat>)
    ensures r.None? <==> forall k :: 0 <= k < |s| ==> !p(s[k])
    ensures r.Some? ==> r.value < |s| && p(s[r.value])
    ensures r.Some? ==> forall k :: 0 <= k < |s| && p(s[k]) ==> key(s[k]) <= key(s[r.value])
    decreases |s|
  {
    if s == [] then None
    else
      var rest := NewestIndex(s[..|s| - 1], p, key);
      if !p(s[|s| - 1]) then rest
      else if rest.Some? && key(s[rest.value]) > key(s[|s| - 1]) then rest
      else Some(|s| - 1)
  }

  /** `UPDATE ... SET f WHERE p`: rows satisfying `p` are replaced by `f` of themselves. */
  function Update<T>(s: seq<T>, p: T -> bool, f: T -> T): seq<T>
  {
    seq(|s|, k requires 0 <= k < |s| => if p(s[k]) then f(s[k]) else s[k])
  }

  /** An update that keeps each row's key keeps the order of the table. */
  lemma UpdateIncreasing<T>(s: seq<T>, p: T -> bool, f: T -> T, key: T -> int)
    requires Increasing(s, key)
    requires forall x :: key(f(x)) == key(x)
    ensures Increasing(Update(s, p, f), key)
  {
  }

  /** `x` inserted into a sequence ordered by non-increasing key. */
  function Insert<T>(x: T, s: seq<T>, key: T -> int): (r: seq<T>)
    ensures multiset(r) == multiset(s) + multiset{x}
    decreases |s|
  {
    if s == [] then [x]
    else if key(x) >= key(s[0]) then [x] + s
    else
      assert s == [s[0]] + s[1..];
      [s[0]] + Insert(x, s[1..], key)
  }

  lemma {:induction false} InsertNonIncreasing<T>(x: T, s: seq<T>, key: T -> int)
    requires NonIncreasing(s, key)
    ensures NonIncreasing(Insert(x, s, key), key)
    decreases |s|
  {
    if s != [] && key(x) < key(s[0]) {
      var tail := Insert(x, s[1..], key);
      InsertNonIncreasing(x, s[1..], key);
      forall k | 0 <= k < |tail| ensures key(s[0]) >= key(tail[k]) {
        assert tail[k] in multiset(s[1..]) + multiset{x};
        if tail[k] != x {
          assert tail[k] in s[1..];
        }
      }
    }
  }

  /** `ORDER BY key DESC`: the rows of `s` rearranged by non-increasing key. */
  function SortDesc<T>(s: seq<T>, key: T -> int): (r: seq<T>)
    ensures multiset(r) == multiset(s)
    ensures NonIncreasing(r, key)
    decreases |s|
  {
    if s == [] then []
    else
      var rest := SortDesc(s[1..], key);
      InsertNonIncreasing(s[0], rest, key);
      assert s == [s[0]] + s[1..];
      Insert(s[0], rest, key)
  }

  lemma SortDescMember<T>(s: seq<T>, key: T -> int, x: T)
    ensures x in SortDesc(s, key) <==> x in s
  {
    assert x in multiset(SortDesc(s, key)) <==> x in multiset(s);
  }

  function Min(a: int, b: int): int { if a <= b then a else b }

  function Max(a: int, b: int): int { if a >= b then a else b }

  /** `LIMIT limit OFFSET offset` as SQLite applies it: a negative offset
      counts as zero and a negative limit means no limit. */
  function Window<T>(rows: seq<T>, limit: int, offset: int): (r: seq<T>)
    ensures var start := Min(Max(offset, 0), |rows|);
      |r| == (if limit < 0 then |rows| - start else Min(limit, |rows| - start))
      && forall k :: 0 <= k < |r| ==> r[k] == rows[start + k]
  {
    var start := Min(Max(offset, 0), |rows|);
    var stop := if limit < 0 then |rows| else Min(start + limit, |rows|);
    rows[start..stop]
  }

  lemma WindowDecreasing<T>(rows: seq<T>, key: T -> int, limit: int, offset: int)
    requires Decreasing(rows, key)
    ensures Decreasing(Window(rows, limit, offset), key)
  {
    var r := Window(rows, limit, offset);
    var start := Min(Max(offset, 0), |rows|);
    forall i, j | 0 <= i < j < |r| ensures key(r[i]) > key(r[j]) {
      assert r[i] == rows[start + i] && r[j] == rows[start + j];
    }
  }

  lemma WindowSlice<T>(rows: seq<T>, limit: int, offset: int)
    requires limit >= 0 && offset >= 0
    ensures var start := Min(offset, |rows|);
      Window(rows, limit, offset) == rows[start..Min(start + limit, |rows|)]
  {
  }
}
