/**
 * Match tiers, candidate results, name classification and the result
 * finalizer (`finalize_matches`).
 */
module Matches {
  import opened Text
  import opened Sorting

  /** Ordered from highest to lowest priority; there is no prefix tier. */
  datatype MatchQuality = ExactUp | PartialUp | ExactDown | PartialDown

  function Rank(q: MatchQuality): nat {
    match q
    case ExactUp => 0
    case PartialUp => 1
    case ExactDown => 2
    case PartialDown => 3
  }

  predicate IsUp(q: MatchQuality) {
    q == ExactUp || q == PartialUp
  }

  /** A candidate: its path, its signed distance from the start directory, and its tier. */
  datatype DirectoryMatch = DirectoryMatch(path: Path, depthFromCurrent: int, matchQuality: MatchQuality)

  // ----- classification -----

  datatype Kind = NoMatch | Exact | Partial

  /**
   * The rule every walker applies to a directory name: exact when the
   * lower-cased name equals the lower-cased token, partial when it contains
   * it without being equal.
   */
  function Classify(name: string, token: string): (k: Kind)
    ensures k == Exact <==> Lower(name) == Lower(token)
    ensures k == Exact ==> |name| == |token|
    ensures k == Partial ==> |token| < |name|
    ensures k != NoMatch <==> Contains(Lower(name), Lower(token))
  {
    var n, t := Lower(name), Lower(token);
    if n == t then
      assert IsPrefix(t, n[0..]);
      Exact
    else if Contains(n, t) then
      assert |t| < |n| by {
        ContainsLength(n, t);
      }
      Partial
    else NoMatch
  }

  /** The empty token is contained in every name: every non-empty name is a partial match for it. */
  lemma EmptyTokenClassifiesPartial(name: string)
    requires name != ""
    ensures Classify(name, "") == Partial
  {
    EmptyIsContained(Lower(name));
  }

  // ----- the finalizer's orders -----

  /** `a.path <= b.path` */
  predicate PathLe(a: DirectoryMatch, b: DirectoryMatch) {
    !PathLess(b.path, a.path)
  }

  /** Within an "Up" tier nearer ancestors (larger depth) rank first, within a "Down" tier shallower entries. */
  function DepthKey(m: DirectoryMatch): int {
    if IsUp(m.matchQuality) then -m.depthFromCurrent else m.depthFromCurrent
  }

  /** The comparator of the second sort: tier first, then the tier's depth rule. */
  predicate PriorityLess(a: DirectoryMatch, b: DirectoryMatch) {
    Rank(a.matchQuality) < Rank(b.matchQuality)
    || (Rank(a.matchQuality) == Rank(b.matchQuality) && DepthKey(a) < DepthKey(b))
  }

  predicate PriorityLe(a: DirectoryMatch, b: DirectoryMatch) {
    !PriorityLess(b, a)
  }

  /** The order the finalizer produces: priority, then ascending path among priority ties. */
  predicate Before(a: DirectoryMatch, b: DirectoryMatch) {
    PriorityLess(a, b) || (PriorityLe(a, b) && PriorityLe(b, a) && PathLess(a.path, b.path))
  }

  function PathOf(m: DirectoryMatch): Path {
    m.path
  }

  predicate PathsDistinct(s: seq<DirectoryMatch>) {
    KeysDistinct(s, PathOf)
  }

  function PathSet(s: seq<DirectoryMatch>): set<Path> {
    set m | m in s :: m.path
  }

  predicate PathsAscending(s: seq<DirectoryMatch>) {
    forall i, j :: 0 <= i < j < |s| ==> PathLess(s[i].path, s[j].path)
  }

  lemma PathLeTotalPreorder()
    ensures TotalPreorder(PathLe)
  {
    forall a, b ensures PathLe(a, b) || PathLe(b, a) {
      if a.path != b.path {
        PathLessTotal(a.path, b.path);
        if PathLess(a.path, b.path) { PathLessAsymmetric(a.path, b.path); }
      } else {
        PathLessIrreflexive(a.path);
      }
    }
    forall a, b, c | PathLe(a, b) && PathLe(b, c) ensures PathLe(a, c) {
      if PathLess(c.path, a.path) {
        if a.path != b.path { PathLessTotal(a.path, b.path); }
        if b.path != c.path { PathLessTotal(b.path, c.path); }
        if a.path == b.path || b.path == c.path {
          PathLessIrreflexive(a.path);
        } else {
          PathLessTransitive(a.path, b.path, c.path);
          PathLessTransitive(c.path, a.path, c.path);
          PathLessIrreflexive(c.path);
        }
      }
    }
  }

  lemma PriorityLeTotalPreorder()
    ensures TotalPreorder(PriorityLe)
  {
  }

  lemma BeforeAsymmetric()
    ensures forall a, b :: Before(a, b) ==> !Before(b, a)
  {
    forall a, b | Before(a, b) ensures !Before(b, a) {
      if PathLess(a.path, b.path) && PathLess(b.path, a.path) {
        PathLessTransitive(a.path, b.path, a.path);
        PathLessIrreflexive(a.path);
      }
    }
  }

  lemma BeforeTransitive()
    ensures forall a, b, c :: Before(a, b) && Before(b, c) ==> Before(a, c)
  {
    forall a, b, c | Before(a, b) && Before(b, c) ensures Before(a, c) {
      if PathLess(a.path, b.path) && PathLess(b.path, c.path) {
        PathLessTransitive(a.path, b.path, c.path);
      }
    }
  }

  // ----- dedup_by on paths -----

  /** `Vec::dedup_by` on equal paths: of each run of equal paths only the first stays. */
  function DedupByPath(s: seq<DirectoryMatch>): (r: seq<DirectoryMatch>)
    ensures multiset(r) <= multiset(s)
    ensures PathSet(r) == PathSet(s)
    ensures s != [] ==> r != [] && r[0] == s[0]
    decreases |s|
  {
    if |s| <= 1 then s
    else if s[0].path == s[1].path then
      var t := [s[0]] + s[2..];
      assert s == [s[0], s[1]] + s[2..];
      assert PathSet(t) == PathSet(s) by {
        assert forall m :: m in s ==> m in t || m == s[1];
      }
      DedupByPath(t)
    else
      assert s == [s[0]] + s[1..];
      assert PathSet(s) == {s[0].path} + PathSet(s[1..]);
      [s[0]] + DedupByPath(s[1..])
  }

  /** On input sorted by path, the survivors have strictly ascending, hence distinct, paths. */
  lemma {:induction false} DedupAscending(s: seq<DirectoryMatch>)
    requires SortedBy(s, PathLe)
    ensures PathsAscending(DedupByPath(s))
    decreases |s|
  {
    if |s| > 1 {
      if s[0].path == s[1].path {
        var t := [s[0]] + s[2..];
        assert SortedBy(t, PathLe) by {
          forall i, j | 0 <= i < j < |t| ensures PathLe(t[i], t[j]) {
            assert t[j] == s[j + 1];
            if i > 0 { assert t[i] == s[i + 1]; }
          }
        }
        DedupAscending(t);
      } else {
        DedupAscending(s[1..]);
        HeadBelowRest(s);
      }
    }
  }

  /** When the first two paths differ, the first path is below every path that survives dedup in the rest. */
  lemma HeadBelowRest(s: seq<DirectoryMatch>)
    requires |s| > 1 && SortedBy(s, PathLe) && s[0].path != s[1].path
    ensures forall k :: 0 <= k < |DedupByPath(s[1..])| ==> PathLess(s[0].path, DedupByPath(s[1..])[k].path)
  {
    PathLessTotal(s[0].path, s[1].path);
    var rest := s[1..];
    var d := DedupByPath(rest);
    forall k | 0 <= k < |d| ensures PathLess(s[0].path, d[k].path) {
      assert d[k] in multiset(rest);
      var j :| 0 <= j < |rest| && rest[j] == d[k];
      if j > 0 && d[k].path != s[1].path {
        assert PathLe(s[1], s[j + 1]);
        PathLessTotal(s[1].path, d[k].path);
        PathLessTransitive(s[0].path, s[1].path, d[k].path);
      }
    }
  }

  /** Dedup leaves input with strictly ascending paths unchanged. */
  lemma {:induction false} DedupOfAscending(s: seq<DirectoryMatch>)
    requires PathsAscending(s)
    ensures DedupByPath(s) == s
    decreases |s|
  {
    if |s| > 1 {
      PathLessIrreflexive(s[0].path);
      assert s[0].path != s[1].path;
      DedupOfAscending(s[1..]);
      assert s == [s[0]] + s[1..];
    }
  }

  // ----- finalize_matches -----

  /**
   * `finalize_matches`: sort by path, drop later entries with an equal path,
   * then stable-sort by tier and the tier's depth rule.
   */
  function FinalizeMatches(matches: seq<DirectoryMatch>): (r: seq<DirectoryMatch>)
    ensures PathsDistinct(r)
    ensures PathSet(r) == PathSet(matches)
    ensures multiset(r) <= multiset(matches)
    ensures StrictlySortedBy(r, Before)
    ensures forall i, j :: 0 <= i < j < |r| ==> Rank(r[i].matchQuality) <= Rank(r[j].matchQuality)
    ensures forall i, j :: 0 <= i < j < |r| && r[i].matchQuality == r[j].matchQuality && IsUp(r[i].matchQuality)
              ==> r[i].depthFromCurrent >= r[j].depthFromCurrent
    ensures forall i, j :: 0 <= i < j < |r| && r[i].matchQuality == r[j].matchQuality && !IsUp(r[i].matchQuality)
              ==> r[i].depthFromCurrent <= r[j].depthFromCurrent
    ensures forall i, j :: (0 <= i < j < |r| && r[i].matchQuality == r[j].matchQuality
                            && r[i].depthFromCurrent == r[j].depthFromCurrent) ==> PathLess(r[i].path, r[j].path)
  {
    var byPath := SortBy(matches, PathLe);
    var unique := DedupByPath(byPath);
    var r := SortBy(unique, PriorityLe);
    FinalizeFacts(matches, byPath, unique, r);
    OrderedByTier(r);
    r
  }

  /** What `Before` says about two matches: tier, then the tier's depth rule, then path. */
  lemma BeforeTier(a: DirectoryMatch, b: DirectoryMatch)
    requires Before(a, b)
    ensures Rank(a.matchQuality) <= Rank(b.matchQuality)
    ensures a.matchQuality == b.matchQuality && IsUp(a.matchQuality) ==> a.depthFromCurrent >= b.depthFromCurrent
    ensures a.matchQuality == b.matchQuality && !IsUp(a.matchQuality) ==> a.depthFromCurrent <= b.depthFromCurrent
    ensures a.matchQuality == b.matchQuality && a.depthFromCurrent == b.depthFromCurrent ==> PathLess(a.path, b.path)
  {
  }

  /** A list in `Before` order ascends by tier, then by the tier's depth rule, then by path. */
  lemma OrderedByTier(r: seq<DirectoryMatch>)
    requires StrictlySortedBy(r, Before)
    ensures forall i, j :: 0 <= i < j < |r| ==> Rank(r[i].matchQuality) <= Rank(r[j].matchQuality)
    ensures forall i, j :: 0 <= i < j < |r| && r[i].matchQuality == r[j].matchQuality && IsUp(r[i].matchQuality)
              ==> r[i].depthFromCurrent >= r[j].depthFromCurrent
    ensures forall i, j :: 0 <= i < j < |r| && r[i].matchQuality == r[j].matchQuality && !IsUp(r[i].matchQuality)
              ==> r[i].depthFromCurrent <= r[j].depthFromCurrent
    ensures forall i, j :: (0 <= i < j < |r| && r[i].matchQuality == r[j].matchQuality
                            && r[i].depthFromCurrent == r[j].depthFromCurrent) ==> PathLess(r[i].path, r[j].path)
  {
    forall i, j | 0 <= i < j < |r| {
      BeforeTier(r[i], r[j]);
    }
  }

  lemma FinalizeFacts(matches: seq<DirectoryMatch>, byPath: seq<DirectoryMatch>,
                      unique: seq<DirectoryMatch>, r: seq<DirectoryMatch>)
    requires byPath == SortBy(matches, PathLe)
    requires unique == DedupByPath(byPath)
    requires r == SortBy(unique, PriorityLe)
    ensures PathsDistinct(r)
    ensures PathSet(r) == PathSet(matches)
    ensures multiset(r) <= multiset(matches)
    ensures StrictlySortedBy(r, Before)
  {
    PathLeTotalPreorder();
    SortSorted(matches, PathLe);
    DedupAscending(byPath);
    SameElementsSamePaths(byPath, matches);
    SameElementsSamePaths(r, unique);
    AscendingDistinct(unique);
    SortKeysDistinct(unique, PriorityLe, PathOf);
    PriorityOrderFromAscending(unique);
  }

  lemma SameElementsSamePaths(s: seq<DirectoryMatch>, t: seq<DirectoryMatch>)
    requires multiset(s) == multiset(t)
    ensures PathSet(s) == PathSet(t)
  {
    assert forall m :: m in s <==> m in multiset(s);
    assert forall m :: m in t <==> m in multiset(t);
  }

  lemma AscendingDistinct(s: seq<DirectoryMatch>)
    requires PathsAscending(s)
    ensures PathsDistinct(s)
  {
    forall i, j | 0 <= i < j < |s| ensures PathOf(s[i]) != PathOf(s[j]) {
      PathLessIrreflexive(s[i].path);
    }
  }

  /** On input with ascending paths, the stable priority sort orders by `Before`. */
  lemma PriorityOrderFromAscending(s: seq<DirectoryMatch>)
    requires PathsAscending(s)
    ensures StrictlySortedBy(SortBy(s, PriorityLe), Before)
  {
    PriorityLeTotalPreorder();
    BeforeTransitive();
    assert RefinesOn(s, PriorityLe, Before);
    SortStable(s, PriorityLe, Before);
  }

  /** A list already in the finalizer's order, with distinct paths, comes back unchanged. */
  lemma FinalizeOfOrdered(s: seq<DirectoryMatch>)
    requires StrictlySortedBy(s, Before)
    requires PathsDistinct(s)
    ensures FinalizeMatches(s) == s
  {
    PathLeTotalPreorder();
    var byPath := SortBy(s, PathLe);
    SortKeysDistinct(s, PathLe, PathOf);
    SortSorted(s, PathLe);
    assert PathsAscending(byPath) by {
      forall i, j | 0 <= i < j < |byPath| ensures PathLess(byPath[i].path, byPath[j].path) {
        assert PathLe(byPath[i], byPath[j]);
        assert PathOf(byPath[i]) != PathOf(byPath[j]);
        PathLessTotal(byPath[i].path, byPath[j].path);
      }
    }
    DedupOfAscending(byPath);
    BeforeAsymmetric();
    StrictlySortedUnique(FinalizeMatches(s), s, Before);
  }

  /** Finalizing a finalized list changes nothing. */
  lemma FinalizeIdempotent(matches: seq<DirectoryMatch>)
    ensures FinalizeMatches(FinalizeMatches(matches)) == FinalizeMatches(matches)
  {
    FinalizeOfOrdered(FinalizeMatches(matches));
  }
}
