/**
 * Completeness of `search_path_pattern_fast`: when the clock never expires
 * and the search ends under the match ceiling, every directory at which the
 * pieces of the term can be matched in order is among the results.
 *
 * `PatternAll` is the walk of `PatternWalk` without its budget. It is first
 * shown equal to the walk on such a run, and the tree-level facts are then
 * proved about `PatternAll`.
 */
module PatternComplete {
  import opened Text
  import opened Matches
  import opened Tree
  import opened SearchBudget
  import opened PatternSearch

  // ----- the walk without a budget -----

  /** Everything `PatternWalk` would report if no budget check ever said stop. */
  function PatternAll(d: Dir, path: Path, pattern: string, remaining: seq<string>, base: int, maxDepth: nat): seq<DirectoryMatch>
    decreases maxDepth, 1, 0
  {
    if maxDepth == 0 then [] else AllEntries(Entries(d), path, pattern, remaining, base, maxDepth)
  }

  /** For each entry: its own contribution, then the same pattern one level further down. */
  function AllEntries(es: seq<Dir>, path: Path, pattern: string, remaining: seq<string>, base: int, maxDepth: nat): seq<DirectoryMatch>
    requires maxDepth > 0
    decreases maxDepth, 0, |es|
  {
    if es == [] then []
    else
      var e := es[0];
      AllHere(e, path, pattern, remaining, base, maxDepth)
        + PatternAll(e, path + [e.name], pattern, remaining, base + 1, maxDepth - 1)
        + AllEntries(es[1..], path, pattern, remaining, base, maxDepth)
  }

  /** An entry that matches the pattern: a result for the last piece, or the search for the next piece below it. */
  function AllHere(e: Dir, path: Path, pattern: string, remaining: seq<string>, base: int, maxDepth: nat): seq<DirectoryMatch>
    requires maxDepth > 0
    decreases maxDepth, 0, 0
  {
    if !PatternHit(e.name, pattern) then []
    else if remaining == [] then [DirectoryMatch(path + [e.name], base + 1, PatternQuality(e.name, pattern, base))]
    else PatternAll(e, path + [e.name], remaining[0], remaining[1..], base + 1, maxDepth - 1)
  }

  // ----- a run that the budget never stops -----

  /**
   * With a clock that never expires, a walk that ends under the match
   * ceiling was never stopped, so it reports exactly `PatternAll`.
   */
  lemma {:induction false} PatternWalkAll(d: Dir, path: Path, pattern: string, remaining: seq<string>, base: int,
                                          maxDepth: nat, b: Budget)
    requires PatternWalk(d, path, pattern, remaining, base, maxDepth, b, Never).budget.matches < MAX_MATCHES
    ensures PatternWalk(d, path, pattern, remaining, base, maxDepth, b, Never).found
      == PatternAll(d, path, pattern, remaining, base, maxDepth)
    decreases maxDepth, 1, 0
  {
    if maxDepth > 0 {
      var (go, b1) := ShouldContinueAt(b, Never);
      if go {
        PatternEntriesAll(Entries(d), path, pattern, remaining, base, maxDepth, b1);
      }
    }
  }

  lemma {:induction false} PatternEntriesAll(es: seq<Dir>, path: Path, pattern: string, remaining: seq<string>, base: int,
                                             maxDepth: nat, b: Budget)
    requires maxDepth > 0
    requires PatternEntries(es, path, pattern, remaining, base, maxDepth, b, Never).budget.matches < MAX_MATCHES
    ensures PatternEntries(es, path, pattern, remaining, base, maxDepth, b, Never).found
      == AllEntries(es, path, pattern, remaining, base, maxDepth)
    decreases maxDepth, 0, |es|
  {
    if es != [] {
      var (go, b1) := ShouldContinueAt(b, Never);
      if go {
        var e := es[0];
        PatternHereCounted(e, path, pattern, remaining, base, maxDepth, b1, Never);
        var here := PatternHere(e, path, pattern, remaining, base, maxDepth, b1, Never);
        PatternDeeperCounted(e, path, pattern, remaining, base, maxDepth, here.budget, Never);
        var deeper := PatternDeeper(e, path, pattern, remaining, base, maxDepth, here.budget, Never);
        PatternEntriesCounted(es[1..], path, pattern, remaining, base, maxDepth, deeper.budget, Never);
        PatternHereAll(e, path, pattern, remaining, base, maxDepth, b1);
        PatternDeeperAll(e, path, pattern, remaining, base, maxDepth, here.budget);
        PatternEntriesAll(es[1..], path, pattern, remaining, base, maxDepth, deeper.budget);
      }
    }
  }

  lemma {:induction false} PatternHereAll(e: Dir, path: Path, pattern: string, remaining: seq<string>, base: int,
                                          maxDepth: nat, b: Budget)
    requires maxDepth > 0
    requires PatternHere(e, path, pattern, remaining, base, maxDepth, b, Never).budget.matches < MAX_MATCHES
    ensures PatternHere(e, path, pattern, remaining, base, maxDepth, b, Never).found
      == AllHere(e, path, pattern, remaining, base, maxDepth)
    decreases maxDepth, 0, 0
  {
    if PatternHit(e.name, pattern) && remaining != [] {
      PatternWalkAll(e, path + [e.name], remaining[0], remaining[1..], base + 1, maxDepth - 1, b);
    }
  }

  lemma {:induction false} PatternDeeperAll(e: Dir, path: Path, pattern: string, remaining: seq<string>, base: int,
                                            maxDepth: nat, b: Budget)
    requires maxDepth > 0
    requires PatternDeeper(e, path, pattern, remaining, base, maxDepth, b, Never).budget.matches < MAX_MATCHES
    ensures PatternDeeper(e, path, pattern, remaining, base, maxDepth, b, Never).found
      == PatternAll(e, path + [e.name], pattern, remaining, base + 1, maxDepth - 1)
    decreases maxDepth, 0, 0
  {
    var (go, b1) := ShouldContinueAt(b, Never);
    if go {
      PatternWalkAll(e, path + [e.name], pattern, remaining, base + 1, maxDepth - 1, b1);
    }
  }

  // ----- every chain in the tree is found -----

  /** The result reported for the directory at the end of the descent `ds` below `path` (at depth `base`). */
  function Reported(path: Path, ds: seq<Dir>, base: int, pieces: seq<string>): DirectoryMatch
    requires ds != [] && pieces != []
  {
    DirectoryMatch(path + Names(ds), base + |ds|, PatternQuality(ds[|ds| - 1].name, pieces[|pieces| - 1], base + |ds| - 1))
  }

  /**
   * Every directory `ds` reaches from `d` within `maxDepth` levels, along
   * whose path below `path` the pieces can be matched in order (the last one
   * by the directory itself), is reported with its depth and its tier.
   */
  lemma {:induction false} PatternAllFinds(d: Dir, path: Path, pattern: string, remaining: seq<string>, base: int,
                                           maxDepth: nat, ds: seq<Dir>, ps: seq<nat>)
    requires Descent(d, ds) && 1 <= |ds| <= maxDepth
    requires Chain(path + Names(ds), |path|, [pattern] + remaining, ps)
    ensures Reported(path, ds, base, [pattern] + remaining) in PatternAll(d, path, pattern, remaining, base, maxDepth)
    decreases |ds|, 1
  {
    var e := ds[0];
    AllEntriesHolds(Entries(d), e, path, pattern, remaining, base, maxDepth);
    HitsIndex(path + Names(ds), [pattern] + remaining, ps, 0);
    if ps[0] != |path| + 1 {
      FindsDeeper(d, path, pattern, remaining, base, maxDepth, ds, ps);
    } else if remaining == [] {
      FindsEntry(path, pattern, base, ds, ps);
    } else {
      FindsNext(d, path, pattern, remaining, base, maxDepth, ds, ps);
    }
  }

  /** The first piece matched by the first directory of the descent, and it is the only piece: that directory is the result. */
  lemma FindsEntry(path: Path, pattern: string, base: int, ds: seq<Dir>, ps: seq<nat>)
    requires 1 <= |ds| && Chain(path + Names(ds), |path|, [pattern], ps) && ps[0] == |path| + 1
    ensures Names(ds) == [ds[0].name] && PatternHit(ds[0].name, pattern)
    ensures Reported(path, ds, base, [pattern]) == DirectoryMatch(path + [ds[0].name], base + 1, PatternQuality(ds[0].name, pattern, base))
  {
    HitsIndex(path + Names(ds), [pattern], ps, 0);
    assert |ds| == 1;
  }

  /** The first piece matched by the first directory `e` of the descent: the rest of the chain is found below `e`. */
  lemma {:induction false} FindsNext(d: Dir, path: Path, pattern: string, remaining: seq<string>, base: int,
                                     maxDepth: nat, ds: seq<Dir>, ps: seq<nat>)
    requires Descent(d, ds) && 1 <= |ds| <= maxDepth && remaining != []
    requires Chain(path + Names(ds), |path|, [pattern] + remaining, ps) && ps[0] == |path| + 1
    ensures Reported(path, ds, base, [pattern] + remaining)
      in PatternAll(ds[0], path + [ds[0].name], remaining[0], remaining[1..], base + 1, maxDepth - 1)
    decreases |ds|, 0
  {
    assert |ds| >= 2 by {
      assert ps[0] < ps[1] <= |path + Names(ds)|;
    }
    NextChain(path, ds, pattern, remaining, ps);
    StepDown(d, path, ds, base, [pattern] + remaining);
    assert [remaining[0]] + remaining[1..] == remaining;
    PatternAllFinds(ds[0], path + [ds[0].name], remaining[0], remaining[1..], base + 1, maxDepth - 1, ds[1..], ps[1..]);
  }

  /** The first piece matched deeper than the first directory `e` of the descent: the whole chain is found below `e`. */
  lemma {:induction false} FindsDeeper(d: Dir, path: Path, pattern: string, remaining: seq<string>, base: int,
                                       maxDepth: nat, ds: seq<Dir>, ps: seq<nat>)
    requires Descent(d, ds) && 1 <= |ds| <= maxDepth
    requires Chain(path + Names(ds), |path|, [pattern] + remaining, ps) && ps[0] != |path| + 1
    ensures Reported(path, ds, base, [pattern] + remaining)
      in PatternAll(ds[0], path + [ds[0].name], pattern, remaining, base + 1, maxDepth - 1)
    decreases |ds|, 0
  {
    assert |ds| >= 2 by {
      assert |path| + 1 < ps[0] <= |path + Names(ds)|;
    }
    SkipChain(path, ds, [pattern] + remaining, ps);
    StepDown(d, path, ds, base, [pattern] + remaining);
    PatternAllFinds(ds[0], path + [ds[0].name], pattern, remaining, base + 1, maxDepth - 1, ds[1..], ps);
  }

  /** One level down the descent: the rest descends from its first directory and is reported the same way. */
  lemma StepDown(d: Dir, path: Path, ds: seq<Dir>, base: int, pieces: seq<string>)
    requires Descent(d, ds) && 2 <= |ds| && pieces != []
    ensures Descent(ds[0], ds[1..])
    ensures path + Names(ds) == (path + [ds[0].name]) + Names(ds[1..])
    ensures Reported(path, ds, base, pieces) == Reported(path + [ds[0].name], ds[1..], base + 1, pieces)
  {
    assert path + Names(ds) == (path + [ds[0].name]) + Names(ds[1..]);
    assert ds[1..][|ds| - 2] == ds[|ds| - 1];
  }

  /** A chain whose first piece is matched by the first directory below `path` continues with the other pieces below it. */
  lemma NextChain(path: Path, ds: seq<Dir>, pattern: string, remaining: seq<string>, ps: seq<nat>)
    requires 2 <= |ds| && remaining != []
    requires Chain(path + Names(ds), |path|, [pattern] + remaining, ps) && ps[0] == |path| + 1
    ensures Chain((path + [ds[0].name]) + Names(ds[1..]), |path| + 1, [remaining[0]] + remaining[1..], ps[1..])
  {
    var p := path + Names(ds);
    assert p == (path + [ds[0].name]) + Names(ds[1..]);
    assert ([pattern] + remaining)[1..] == [remaining[0]] + remaining[1..];
    forall k | 0 <= k < |ps[1..]| ensures |path| + 1 < ps[1..][k] {
      assert ps[0] < ps[k + 1];
    }
  }

  /** A chain whose first piece is matched deeper than the first directory below `path` is a chain below that directory. */
  lemma SkipChain(path: Path, ds: seq<Dir>, pieces: seq<string>, ps: seq<nat>)
    requires 1 <= |ds|
    requires Chain(path + Names(ds), |path|, pieces, ps) && ps[0] != |path| + 1
    ensures Chain((path + [ds[0].name]) + Names(ds[1..]), |path| + 1, pieces, ps)
  {
    assert path + Names(ds) == (path + [ds[0].name]) + Names(ds[1..]);
  }

  /** The loop over `es` collects, for each entry, its own contribution and everything one level further down. */
  lemma {:induction false} AllEntriesHolds(es: seq<Dir>, e: Dir, path: Path, pattern: string, remaining: seq<string>,
                                           base: int, maxDepth: nat)
    requires e in es && maxDepth > 0
    ensures forall m :: m in AllHere(e, path, pattern, remaining, base, maxDepth) ==>
      m in AllEntries(es, path, pattern, remaining, base, maxDepth)
    ensures forall m :: m in PatternAll(e, path + [e.name], pattern, remaining, base + 1, maxDepth - 1) ==>
      m in AllEntries(es, path, pattern, remaining, base, maxDepth)
    decreases |es|
  {
    if es[0] != e {
      AllEntriesHolds(es[1..], e, path, pattern, remaining, base, maxDepth);
    }
  }

  /** With a clock that never expires and room under the ceiling, the recursive walk finds every such directory. */
  lemma PatternWalkFinds(d: Dir, path: Path, pattern: string, remaining: seq<string>, base: int,
                         maxDepth: nat, b: Budget, ds: seq<Dir>, ps: seq<nat>)
    requires PatternWalk(d, path, pattern, remaining, base, maxDepth, b, Never).budget.matches < MAX_MATCHES
    requires Descent(d, ds) && 1 <= |ds| <= maxDepth
    requires Chain(path + Names(ds), |path|, [pattern] + remaining, ps)
    ensures Reported(path, ds, base, [pattern] + remaining) in PatternWalk(d, path, pattern, remaining, base, maxDepth, b, Never).found
  {
    PatternWalkAll(d, path, pattern, remaining, base, maxDepth, b);
    PatternAllFinds(d, path, pattern, remaining, base, maxDepth, ds, ps);
  }

  // ----- the ancestors and the whole search -----

  /** The result reported for the ancestor `cwd[..j]` when it matches the only piece. */
  function AncestorReported(cwd: Path, j: nat, first: string): DirectoryMatch
    requires j <= |cwd| && j >= 1
  {
    DirectoryMatch(cwd[..j], j - |cwd|, if Lower(cwd[j - 1]) == Lower(first) then ExactUp else PartialUp)
  }

  /**
   * What the ancestor `cwd[..j]`, whose name contains the first piece,
   * contributes to `found`: itself if that piece is the only one, and
   * otherwise the directory at the end of `ds`, up to 3 levels below it,
   * when `ps` completes the chain of the later pieces there.
   */
  ghost predicate AncestorFound(found: seq<DirectoryMatch>, root: Dir, cwd: Path, first: string, remaining: seq<string>,
                                j: nat, ds: seq<Dir>, ps: seq<nat>)
    requires 1 <= j <= |cwd|
  {
    && (remaining == [] ==> AncestorReported(cwd, j, first) in found)
    && (remaining != [] && Descent(DirAt(root, cwd[..j]), ds) && 1 <= |ds| <= PATTERN_DEPTH
        && Chain(cwd[..j] + Names(ds), j, remaining, ps) ==>
      Reported(cwd[..j], ds, j - |cwd|, remaining) in found)
  }

  /** More results keep what was found. */
  lemma AncestorFoundJoin(xs: seq<DirectoryMatch>, ys: seq<DirectoryMatch>, root: Dir, cwd: Path, first: string,
                          remaining: seq<string>, j: nat, ds: seq<Dir>, ps: seq<nat>)
    requires 1 <= j <= |cwd|
    requires AncestorFound(xs, root, cwd, first, remaining, j, ds, ps) || AncestorFound(ys, root, cwd, first, remaining, j, ds, ps)
    ensures AncestorFound(xs + ys, root, cwd, first, remaining, j, ds, ps)
  {
  }

  /**
   * The ancestor `cwd[..j]`, tried with a clock that never expires and room
   * under the ceiling: when its name contains the first piece, it reports
   * what `AncestorFound` says.
   */
  lemma UpHereFinds(root: Dir, cwd: Path, first: string, remaining: seq<string>, j: nat, b: Budget, ds: seq<Dir>, ps: seq<nat>)
    requires 1 <= j < |cwd| && PatternHit(cwd[j - 1], first)
    requires UpHere(root, cwd, first, remaining, j + 1, b, Never).budget.matches < MAX_MATCHES
    ensures AncestorFound(UpHere(root, cwd, first, remaining, j + 1, b, Never).found, root, cwd, first, remaining, j, ds, ps)
  {
    if remaining != [] && Descent(DirAt(root, cwd[..j]), ds) && 1 <= |ds| <= PATTERN_DEPTH
      && Chain(cwd[..j] + Names(ds), j, remaining, ps)
    {
      assert [remaining[0]] + remaining[1..] == remaining;
      PatternWalkFinds(DirAt(root, cwd[..j]), cwd[..j], remaining[0], remaining[1..], j - |cwd|, PATTERN_DEPTH, b, ds, ps);
    }
  }

  /**
   * The upward loop from `cwd[..k - 1]`, with a clock that never expires and
   * room under the ceiling, reaches every named ancestor `cwd[..j]` below
   * `k` within 10 levels of `cwd` whose name contains the first piece.
   */
  lemma {:induction false} UpPatternFinds(root: Dir, cwd: Path, first: string, remaining: seq<string>, k: nat, b: Budget,
                                          j: nat, ds: seq<Dir>, ps: seq<nat>)
    requires k <= |cwd|
    requires UpPattern(root, cwd, first, remaining, k, b, Never).budget.matches < MAX_MATCHES
    requires 1 <= j < k && |cwd| - j <= UP_LIMIT && PatternHit(cwd[j - 1], first)
    ensures AncestorFound(UpPattern(root, cwd, first, remaining, k, b, Never).found, root, cwd, first, remaining, j, ds, ps)
    decreases k
  {
    UpPatternCounted(root, cwd, first, remaining, k, b, Never);
    var (go, b1) := ShouldContinueAt(b, Never);
    assert go && |cwd| - k < UP_LIMIT;
    var here := UpHere(root, cwd, first, remaining, k, b1, Never);
    var rest := UpPattern(root, cwd, first, remaining, k - 1, here.budget, Never);
    UpPatternCounted(root, cwd, first, remaining, k - 1, here.budget, Never);
    if k == j + 1 {
      UpHereFinds(root, cwd, first, remaining, j, b1, ds, ps);
    } else {
      UpPatternFinds(root, cwd, first, remaining, k - 1, here.budget, j, ds, ps);
    }
    AncestorFoundJoin(here.found, rest.found, root, cwd, first, remaining, j, ds, ps);
  }

  /**
   * With a clock that never expires and room under the ceiling, the
   * slash-pattern search reports every directory up to 3 levels below `cwd`
   * along whose path below `cwd` the pieces of the term are matched in order.
   */
  lemma PathPatternFindsBelow(root: Dir, cwd: Path, term: string, b: Budget, ds: seq<Dir>, ps: seq<nat>)
    requires PathPattern(root, cwd, term, b, Never).budget.matches < MAX_MATCHES
    requires Descent(DirAt(root, cwd), ds) && 1 <= |ds| <= PATTERN_DEPTH
    requires Chain(cwd + Names(ds), |cwd|, Split(term, '/'), ps)
    ensures Reported(cwd, ds, 0, Split(term, '/')) in PathPattern(root, cwd, term, b, Never).found
  {
    var parts := Split(term, '/');
    PathPatternCounted(root, cwd, term, b, Never);
    var (go, b1) := ShouldContinueAt(b, Never);
    var down := PatternWalk(DirAt(root, cwd), cwd, parts[0], parts[1..], 0, PATTERN_DEPTH, b1, Never);
    UpPatternCounted(root, cwd, parts[0], parts[1..], |cwd|, down.budget, Never);
    assert [parts[0]] + parts[1..] == parts;
    PatternWalkFinds(DirAt(root, cwd), cwd, parts[0], parts[1..], 0, PATTERN_DEPTH, b1, ds, ps);
  }

  /**
   * With a clock that never expires and room under the ceiling, the
   * slash-pattern search reports each of the 10 nearest named proper
   * ancestors `cwd[..j]` whose name contains the first piece when that is
   * the only piece, and otherwise every directory up to 3 levels below it
   * that completes the chain of the later pieces.
   */
  lemma PathPatternFindsAbove(root: Dir, cwd: Path, term: string, b: Budget, j: nat, ds: seq<Dir>, ps: seq<nat>)
    requires PathPattern(root, cwd, term, b, Never).budget.matches < MAX_MATCHES
    requires 1 <= j < |cwd| && |cwd| - j <= UP_LIMIT && PatternHit(cwd[j - 1], Split(term, '/')[0])
    ensures var parts := Split(term, '/');
      AncestorFound(PathPattern(root, cwd, term, b, Never).found, root, cwd, parts[0], parts[1..], j, ds, ps)
  {
    var parts := Split(term, '/');
    PathPatternCounted(root, cwd, term, b, Never);
    var (go, b1) := ShouldContinueAt(b, Never);
    var down := PatternWalk(DirAt(root, cwd), cwd, parts[0], parts[1..], 0, PATTERN_DEPTH, b1, Never);
    PatternWalkCounted(DirAt(root, cwd), cwd, parts[0], parts[1..], 0, PATTERN_DEPTH, b1, Never);
    UpPatternFinds(root, cwd, parts[0], parts[1..], |cwd|, down.budget, j, ds, ps);
    var up := UpPattern(root, cwd, parts[0], parts[1..], |cwd|, down.budget, Never);
    AncestorFoundJoin(down.found, up.found, root, cwd, parts[0], parts[1..], j, ds, ps);
  }
}
