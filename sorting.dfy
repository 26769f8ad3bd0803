/**
 * The standard library's stable `sort_by`, as a stable insertion sort on
 * sequences. `le(a, b)` plays the role of `cmp(a, b) != Greater`.
 *
 * Proved: the result is a permutation of the input, it is ordered by `le`,
 * elements that `le` ranks equal keep their input order (stated as: any
 * strict order that agrees with `le` and with the input order on ties
 * orders the output), and a strictly ordered permutation is unique.
 */
module Sorting {

  ghost predicate TotalPreorder<T(!new)>(le: (T, T) -> bool) {
    && (forall a, b :: le(a, b) || le(b, a))
    && (forall a, b, c :: le(a, b) && le(b, c) ==> le(a, c))
  }

  predicate SortedBy<T>(s: seq<T>, le: (T, T) -> bool) {
    forall i, j :: 0 <= i < j < |s| ==> le(s[i], s[j])
  }

  predicate StrictlySortedBy<T>(s: seq<T>, lt: (T, T) -> bool) {
    forall i, j :: 0 <= i < j < |s| ==> lt(s[i], s[j])
  }

  /** `x` goes before the first element it is not ranked after. */
  function InsertBy<T>(x: T, s: seq<T>, le: (T, T) -> bool): (r: seq<T>)
    ensures multiset(r) == multiset(s) + multiset{x}
    ensures |r| == |s| + 1
    decreases |s|
  {
    if s == [] then [x]
    else if le(x, s[0]) then [x] + s
    else
      assert s == [s[0]] + s[1..];
      [s[0]] + InsertBy(x, s[1..], le)
  }

  function SortBy<T>(s: seq<T>, le: (T, T) -> bool): (r: seq<T>)
    ensures multiset(r) == multiset(s)
    ensures |r| == |s|
    decreases |s|
  {
    if s == [] then []
    else
      assert s == [s[0]] + s[1..];
      InsertBy(s[0], SortBy(s[1..], le), le)
  }

  lemma {:induction false} InsertSorted<T(!new)>(x: T, s: seq<T>, le: (T, T) -> bool)
    requires TotalPreorder(le)
    requires SortedBy(s, le)
    ensures SortedBy(InsertBy(x, s, le), le)
    decreases |s|
  {
    if s != [] && !le(x, s[0]) {
      InsertSorted(x, s[1..], le);
      var t := InsertBy(x, s[1..], le);
      forall k | 0 <= k < |t| ensures le(s[0], t[k]) {
        assert t[k] in multiset(t);
        assert t[k] in multiset(s[1..]) || t[k] == x;
      }
    }
  }

  /** The sort orders its output. */
  lemma {:induction false} SortSorted<T(!new)>(s: seq<T>, le: (T, T) -> bool)
    requires TotalPreorder(le)
    ensures SortedBy(SortBy(s, le), le)
    decreases |s|
  {
    if s != [] {
      SortSorted(s[1..], le);
      InsertSorted(s[0], SortBy(s[1..], le), le);
    }
  }

  /** The relation `lt` refines `le` and orders the ties of `le` in `s` as `s` does. */
  ghost predicate RefinesOn<T(!new)>(s: seq<T>, le: (T, T) -> bool, lt: (T, T) -> bool) {
    && (forall a, b :: !le(b, a) ==> lt(a, b))
    && (forall a, b, c :: lt(a, b) && lt(b, c) ==> lt(a, c))
    && (forall i, j :: 0 <= i < j < |s| && le(s[i], s[j]) && le(s[j], s[i]) ==> lt(s[i], s[j]))
  }

  lemma {:induction false} InsertStable<T(!new)>(x: T, s: seq<T>, le: (T, T) -> bool, lt: (T, T) -> bool)
    requires TotalPreorder(le)
    requires RefinesOn([], le, lt)
    requires StrictlySortedBy(s, lt)
    requires forall y :: y in s && le(x, y) && le(y, x) ==> lt(x, y)
    ensures StrictlySortedBy(InsertBy(x, s, le), lt)
    decreases |s|
  {
    if s != [] {
      if le(x, s[0]) {
        assert lt(x, s[0]) by {
          assert s[0] in s;
        }
        var r := [x] + s;
        forall i, j | 0 <= i < j < |r| ensures lt(r[i], r[j]) {
          if i > 0 {
            assert lt(s[i - 1], s[j - 1]);
          } else if j > 1 {
            assert lt(s[0], s[j - 1]);
          }
        }
      } else {
        assert lt(s[0], x);
        InsertStable(x, s[1..], le, lt);
        var t := InsertBy(x, s[1..], le);
        forall k | 0 <= k < |t| ensures lt(s[0], t[k]) {
          assert t[k] in multiset(t);
          assert t[k] in multiset(s[1..]) || t[k] == x;
          if t[k] != x {
            var j :| 0 <= j < |s[1..]| && s[1..][j] == t[k];
            assert lt(s[0], s[j + 1]);
          }
        }
      }
    }
  }

  /**
   * Stability: when `lt` refines `le` and agrees with the input order on
   * `le`-ties, the output is strictly ordered by `lt`.
   */
  lemma {:induction false} SortStable<T(!new)>(s: seq<T>, le: (T, T) -> bool, lt: (T, T) -> bool)
    requires TotalPreorder(le)
    requires RefinesOn(s, le, lt)
    ensures StrictlySortedBy(SortBy(s, le), lt)
    decreases |s|
  {
    if s != [] {
      assert RefinesOn(s[1..], le, lt) by {
        forall i, j | 0 <= i < j < |s[1..]| && le(s[1..][i], s[1..][j]) && le(s[1..][j], s[1..][i])
          ensures lt(s[1..][i], s[1..][j])
        {
          assert s[1..][i] == s[i + 1] && s[1..][j] == s[j + 1];
        }
      }
      SortStable(s[1..], le, lt);
      var t := SortBy(s[1..], le);
      forall y | y in t && le(s[0], y) && le(y, s[0]) ensures lt(s[0], y) {
        assert y in multiset(t);
        var j :| 0 <= j < |s[1..]| && s[1..][j] == y;
        assert s[j + 1] == y;
      }
      assert RefinesOn([], le, lt);
      InsertStable(s[0], t, le, lt);
    }
  }

  /** Two permutations of each other that are both strictly ordered by an asymmetric relation are equal. */
  lemma {:induction false} StrictlySortedUnique<T(!new)>(s: seq<T>, t: seq<T>, lt: (T, T) -> bool)
    requires forall a, b :: lt(a, b) ==> !lt(b, a)
    requires StrictlySortedBy(s, lt) && StrictlySortedBy(t, lt)
    requires multiset(s) == multiset(t)
    ensures s == t
    decreases |s|
  {
    if s == [] {
      assert |t| == |multiset(t)| == 0;
    } else {
      SameHead(s, t, lt);
      SameTail(s, t);
      StrictlySortedUnique(s[1..], t[1..], lt);
      assert s == [s[0]] + s[1..] && t == [t[0]] + t[1..];
    }
  }

  /** Two strictly ordered permutations of each other start with the same element. */
  lemma SameHead<T(!new)>(s: seq<T>, t: seq<T>, lt: (T, T) -> bool)
    requires forall a, b :: lt(a, b) ==> !lt(b, a)
    requires StrictlySortedBy(s, lt) && StrictlySortedBy(t, lt)
    requires multiset(s) == multiset(t) && s != []
    ensures t != [] && t[0] == s[0]
  {
    assert |t| == |multiset(t)| == |multiset(s)| == |s|;
    assert s[0] in multiset(t);
    var k :| 0 <= k < |t| && t[k] == s[0];
    assert t[0] in multiset(s);
    var j :| 0 <= j < |s| && s[j] == t[0];
    if k > 0 {
      // t[0] comes strictly before t[k] == s[0]; s[0] itself or a later s[j] is t[0]
      if j == 0 {
        assert false;
      } else {
        assert false;
      }
    }
  }

  /** Dropping the same first element from two permutations of each other leaves permutations of each other. */
  lemma SameTail<T>(s: seq<T>, t: seq<T>)
    requires s != [] && t != [] && s[0] == t[0] && multiset(s) == multiset(t)
    ensures multiset(s[1..]) == multiset(t[1..])
  {
    assert s == [s[0]] + s[1..] && t == [t[0]] + t[1..];
    assert multiset(s) == multiset([s[0]]) + multiset(s[1..]);
    assert multiset(t) == multiset([t[0]]) + multiset(t[1..]);
    assert multiset(s[1..]) == multiset(s) - multiset([s[0]]);
    assert multiset(t[1..]) == multiset(t) - multiset([t[0]]);
  }

  // ----- distinct keys -----

  predicate KeysDistinct<T, K(==)>(s: seq<T>, key: T -> K) {
    forall i, j :: 0 <= i < j < |s| ==> key(s[i]) != key(s[j])
  }

  lemma {:induction false} InsertKeysDistinct<T, K>(x: T, s: seq<T>, le: (T, T) -> bool, key: T -> K)
    requires KeysDistinct(s, key)
    requires forall y :: y in s ==> key(y) != key(x)
    ensures KeysDistinct(InsertBy(x, s, le), key)
    decreases |s|
  {
    if s != [] && !le(x, s[0]) {
      InsertKeysDistinct(x, s[1..], le, key);
      var t := InsertBy(x, s[1..], le);
      forall k | 0 <= k < |t| ensures key(s[0]) != key(t[k]) {
        assert t[k] in multiset(t);
        assert t[k] in multiset(s[1..]) || t[k] == x;
      }
    }
  }

  /** Sorting keeps keys that were distinct distinct. */
  lemma {:induction false} SortKeysDistinct<T, K>(s: seq<T>, le: (T, T) -> bool, key: T -> K)
    requires KeysDistinct(s, key)
    ensures KeysDistinct(SortBy(s, le), key)
    decreases |s|
  {
    if s != [] {
      SortKeysDistinct(s[1..], le, key);
      var t := SortBy(s[1..], le);
      forall y | y in t ensures key(y) != key(s[0]) {
        assert y in multiset(t);
        var j :| 0 <= j < |s[1..]| && s[1..][j] == y;
        assert s[j + 1] == y;
      }
      InsertKeysDistinct(s[0], t, le, key);
    }
  }
}
