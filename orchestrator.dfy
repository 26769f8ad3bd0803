/**
 * `find_matching_directories`: the search strategy behind `jcd <term>`.
 *
 *   1. A term starting with `/` is an absolute path. If it names a
 *      directory, that directory (depth 0, exact) and every subdirectory
 *      below it within the adaptive depth (empty term, so all exact) are
 *      the candidates; otherwise the longest existing prefix is searched
 *      breadth-first, three levels deep, for the first missing component.
 *      Either way the candidates are finalized and returned.
 *   2. A term containing `/` is a path pattern; its matches, if any, are
 *      finalized and returned.
 *   3. Otherwise (or if the pattern found nothing) the ancestors are
 *      searched; if any match, they are returned as they are.
 *   4. Otherwise the breadth-first search below the current directory
 *      gives the answer, possibly empty.
 *
 * Each search that needs a budget gets a fresh context on the clock
 * `clock`; at most one context is made per call.
 */
module Finder {
  import opened Text
  import opened Sorting
  import opened Matches
  import opened Tree
  import opened SearchBudget
  import opened DepthFirst
  import opened PatternSearch
  import opened UpWalk
  import opened BreadthFirstAll
  import opened ScoredBreadthFirst

  /** The depth limit of the breadth-first search below the nearest existing prefix. */
  const ABSOLUTE_BFS_DEPTH: nat := 3

  predicate IsAbsolute(token: string) {
    |token| > 0 && token[0] == '/'
  }

  /** The candidates for an absolute token that names a directory: itself, then everything below it. */
  function ExistingAbsolute(root: Dir, token: string, clock: Clock): seq<DirectoryMatch> {
    var p := PathOfToken(token);
    var d := DirAt(root, p);
    [DirectoryMatch(p, 0, ExactDown)] + DownFast(d, p, "", 1, AdaptiveDepth(d), Fresh, clock).found
  }

  /** The candidates for an absolute token that names nothing: a search below its longest existing prefix. */
  function MissingAbsolute(root: Dir, token: string, clock: Clock): seq<DirectoryMatch> {
    var (searchRoot, pattern) := FindSearchRootAndPattern(root, token);
    BreadthFirst(DirAt(root, searchRoot), searchRoot, pattern, ABSOLUTE_BFS_DEPTH, Fresh, clock).found
  }

  /** What `find_matching_directories` returns for `token` typed in `cwd`. */
  function Find(root: Dir, cwd: Path, token: string, clock: Clock): seq<DirectoryMatch> {
    if IsAbsolute(token) then
      if IsDirectory(root, PathOfToken(token)) then FinalizeMatches(ExistingAbsolute(root, token, clock))
      else FinalizeMatches(MissingAbsolute(root, token, clock))
    else
      var viaPattern := if '/' in token then PathPattern(root, cwd, token, Fresh, clock).found else [];
      if viaPattern != [] then FinalizeMatches(viaPattern)
      else
        var up := AncestorMatches(cwd, token);
        if up != [] then up
        else
          var down := DownAll(root, cwd, token);
          if down != [] then down else []
  }

  /** `find_matching_directories`, with the clock every fresh context reads. */
  method FindMatchingDirectories(root: Dir, cwd: Path, token: string, clock: Clock) returns (result: seq<DirectoryMatch>)
    ensures result == Find(root, cwd, token, clock)
  {
    var matches: seq<DirectoryMatch> := [];
    if |token| > 0 && token[0] == '/' {
      var p := PathOfToken(token);
      if IsDirectory(root, p) {
        matches := matches + [DirectoryMatch(p, 0, ExactDown)];
        var ctx := new SearchContext(clock);
        var d := DirAt(root, p);
        var adaptiveDepth := AdaptiveDepth(d);
        matches := SearchDownTreeFast(d, p, "", matches, ctx, 1, adaptiveDepth);
        assert matches == ExistingAbsolute(root, token, clock);
      } else {
        var (searchRoot, pattern) := FindSearchRootAndPattern(root, token);
        var ctx := new SearchContext(clock);
        matches := SearchBreadthFirst(DirAt(root, searchRoot), searchRoot, pattern, matches, ctx, ABSOLUTE_BFS_DEPTH);
        assert matches == MissingAbsolute(root, token, clock);
      }
      return FinalizeMatches(matches);
    }
    if '/' in token {
      var ctx := new SearchContext(clock);
      matches := SearchPathPatternFast(root, cwd, token, matches, ctx);
      assert matches == PathPattern(root, cwd, token, Fresh, clock).found;
      if matches != [] {
        return FinalizeMatches(matches);
      }
    }
    assert !IsAbsolute(token);
    assert ('/' in token ==> PathPattern(root, cwd, token, Fresh, clock).found == []);
    var up := SearchUpTree(cwd, token);
    if up != [] {
      return up;
    }
    var down := SearchDownBreadthFirstAll(root, cwd, token);
    if down != [] {
      return down;
    }
    return [];
  }

  // ----- what the strategy promises -----

  /** Every answer is in finalized form: distinct paths, in the finalizer's order, and a fixed point of it. */
  lemma FindFinalized(root: Dir, cwd: Path, token: string, clock: Clock)
    ensures var r := Find(root, cwd, token, clock);
      PathsDistinct(r) && StrictlySortedBy(r, Before) && FinalizeMatches(r) == r
  {
    var r := Find(root, cwd, token, clock);
    if IsAbsolute(token) {
      if IsDirectory(root, PathOfToken(token)) {
        FinalizeIdempotent(ExistingAbsolute(root, token, clock));
      } else {
        FinalizeIdempotent(MissingAbsolute(root, token, clock));
      }
    } else {
      var viaPattern := if '/' in token then PathPattern(root, cwd, token, Fresh, clock).found else [];
      if viaPattern != [] {
        FinalizeIdempotent(viaPattern);
      } else if AncestorMatches(cwd, token) != [] {
        AncestorMatchesFinalized(cwd, token);
      } else {
        DownAllShape(root, cwd, token);
        FinalizeOfOrdered(DownAll(root, cwd, token));
      }
    }
  }

  /**
   * An absolute token that names a directory always jumps there first: the
   * directory itself, at depth 0 and exact, heads the answer.
   */
  lemma ExistingAbsoluteFirst(root: Dir, cwd: Path, token: string, clock: Clock)
    requires IsAbsolute(token) && IsDirectory(root, PathOfToken(token))
    ensures var r := Find(root, cwd, token, clock);
      r != [] && r[0] == DirectoryMatch(PathOfToken(token), 0, ExactDown)
  {
    var p := PathOfToken(token);
    var d := DirAt(root, p);
    var below := DownFast(d, p, "", 1, AdaptiveDepth(d), Fresh, clock).found;
    DownFastPlaced(d, p, "", 1, AdaptiveDepth(d), Fresh, clock);
    EmptyTermIsExact(d, p, 1, AdaptiveDepth(d), Fresh, clock);
    HeadsFinalized(DirectoryMatch(p, 0, ExactDown), below);
  }

  /**
   * An exact match at depth 0 heads the finalized list when every other
   * candidate is an exact match strictly deeper and on a longer path.
   */
  lemma HeadsFinalized(top: DirectoryMatch, below: seq<DirectoryMatch>)
    requires top.depthFromCurrent == 0 && top.matchQuality == ExactDown
    requires forall m :: m in below ==> |m.path| > |top.path| && m.depthFromCurrent >= 1 && m.matchQuality == ExactDown
    ensures var r := FinalizeMatches([top] + below); r != [] && r[0] == top
  {
    var l := [top] + below;
    var r := FinalizeMatches(l);
    var k := TopKept(top, below);
    forall m | m in r ensures m == top || m in below {
      assert m in multiset(r);
    }
    HeadOf(r, k, top, below);
  }

  /** In a list ordered by `Before`, nothing that cannot go before `top` precedes it. */
  lemma HeadOf(r: seq<DirectoryMatch>, k: nat, top: DirectoryMatch, below: seq<DirectoryMatch>)
    requires StrictlySortedBy(r, Before)
    requires k < |r| && r[k] == top && top.depthFromCurrent == 0 && top.matchQuality == ExactDown
    requires forall m :: m in r ==> m == top || m in below
    requires forall m :: m in below ==> m.depthFromCurrent >= 1 && m.matchQuality == ExactDown
    requires forall i :: 0 <= i < |r| && i != k ==> r[i] != top
    ensures r[0] == top
  {
  }

  /** The depth-0 candidate survives the finalizer, being the only one on its path. */
  lemma TopKept(top: DirectoryMatch, below: seq<DirectoryMatch>) returns (k: nat)
    requires forall m :: m in below ==> |m.path| > |top.path|
    ensures var r := FinalizeMatches([top] + below);
      k < |r| && r[k] == top && (forall i :: 0 <= i < |r| && i != k ==> r[i] != top)
  {
    var l := [top] + below;
    var r := FinalizeMatches(l);
    assert top.path in PathSet(l);
    k :| 0 <= k < |r| && r[k].path == top.path;
    assert r[k] in multiset(r);
    assert r[k] == top;
    forall i | 0 <= i < |r| && i != k ensures r[i] != top {
      assert KeysDistinct(r, PathOf);
      assert PathOf(r[i]) != PathOf(r[k]);
    }
  }

  /** An absolute token that names nothing yields only subdirectories of its longest existing prefix that match its first missing component. */
  lemma MissingAbsoluteFound(root: Dir, cwd: Path, token: string, clock: Clock)
    requires IsAbsolute(token) && !IsDirectory(root, PathOfToken(token))
    ensures var (searchRoot, pattern) := FindSearchRootAndPattern(root, token);
      forall m :: m in Find(root, cwd, token, clock) ==>
        && ScoredPlaced(m, searchRoot, pattern, ABSOLUTE_BFS_DEPTH)
        && Reachable(DirAt(root, searchRoot), m.path[|searchRoot|..])
  {
    var (searchRoot, pattern) := FindSearchRootAndPattern(root, token);
    var l := MissingAbsolute(root, token, clock);
    BreadthFirstShape(DirAt(root, searchRoot), searchRoot, pattern, ABSOLUTE_BFS_DEPTH, Fresh, clock);
    forall m | m in Find(root, cwd, token, clock)
      ensures ScoredPlaced(m, searchRoot, pattern, ABSOLUTE_BFS_DEPTH)
      ensures Reachable(DirAt(root, searchRoot), m.path[|searchRoot|..])
    {
      assert m in multiset(FinalizeMatches(l));
      assert m in l;
    }
  }

  /**
   * A relative path pattern that matches anything answers with its own
   * matches only, finalized; each ends in a name that matches the last
   * component of the pattern, and the components are matched in order
   * along its path, from a near ancestor or from `cwd` down.
   */
  lemma PatternAnswers(root: Dir, cwd: Path, token: string, clock: Clock)
    requires !IsAbsolute(token) && '/' in token
    requires PathPattern(root, cwd, token, Fresh, clock).found != []
    ensures var r := Find(root, cwd, token, clock); var parts := Split(token, '/');
      && r == FinalizeMatches(PathPattern(root, cwd, token, Fresh, clock).found)
      && r != []
      && forall m :: m in r ==> PatternResult(m, cwd, parts)
  {
    var found := PathPattern(root, cwd, token, Fresh, clock).found;
    var r := Find(root, cwd, token, clock);
    PathPatternFound(root, cwd, token, Fresh, clock);
    FinalizeNonEmpty(found);
    forall m | m in r ensures m in found {
      assert m in multiset(r);
    }
  }

  /**
   * A plain term (no `/`) prefers ancestors: if any ancestor matches the
   * answer is exactly the ancestor matches; otherwise it is the first
   * productive directory of the breadth-first search below `cwd`, or
   * nothing.
   */
  lemma PlainTermAnswers(root: Dir, cwd: Path, token: string, clock: Clock)
    requires '/' !in token
    ensures var r := Find(root, cwd, token, clock); var up := AncestorMatches(cwd, token);
      && (up != [] ==> r == up)
      && (up == [] ==> r == DownAll(root, cwd, token))
      && (r == [] <==> up == [] && DownAll(root, cwd, token) == [])
  {
    assert !IsAbsolute(token);
  }

  /** When an ancestor matches, nothing below `cwd` is offered: every answer is a proper ancestor of `cwd`. */
  lemma AncestorsOnly(root: Dir, cwd: Path, token: string, clock: Clock)
    requires '/' !in token && AncestorMatches(cwd, token) != []
    ensures forall m :: m in Find(root, cwd, token, clock) ==>
      |m.path| < |cwd| && m.path == cwd[..|m.path|] && m.depthFromCurrent <= -1
  {
    PlainTermAnswers(root, cwd, token, clock);
    AncestorMatchesSound(cwd, token);
  }
}
