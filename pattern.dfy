/**
 * `search_path_pattern_fast` and `search_pattern_recursive_fast`: the
 * search for a slash-separated term such as `src/main`. The term is split
 * at `/` into patterns; the first pattern is searched for below the start
 * directory (3 levels) and among its nearest 10 ancestors, and each
 * directory that matches a pattern has the next pattern searched for below
 * it. A directory matching the last pattern is a result. Every directory
 * visited is also searched for the same pattern one level further down.
 * Unlike the depth-first walk, this search stops at the match ceiling.
 */
module PatternSearch {
  import opened Text
  import opened Matches
  import opened Tree
  import opened SearchBudget
  import opened DepthFirst

  /** How many levels below a directory the patterns are searched for. */
  const PATTERN_DEPTH: nat := 3
  /** How many ancestors the first pattern is tried against. */
  const UP_LIMIT: nat := 10

  predicate PatternHit(name: string, pattern: string) {
    Contains(Lower(name), Lower(pattern))
  }

  /** Exact when the lowercased names are equal; an "up" tier when the parent's depth is negative. */
  function PatternQuality(name: string, pattern: string, base: int): MatchQuality {
    if Lower(name) == Lower(pattern) then (if base < 0 then ExactUp else ExactDown)
    else (if base < 0 then PartialUp else PartialDown)
  }

  // ----- search_pattern_recursive_fast -----

  /**
   * The search below `d` (at `path`, whose depth is `base`) for `pattern`
   * and then the `remaining` patterns, at most `maxDepth` levels deep.
   */
  function PatternWalk(d: Dir, path: Path, pattern: string, remaining: seq<string>, base: int,
                       maxDepth: nat, b: Budget, clock: Clock): Outcome
    decreases maxDepth, 1, 0
  {
    if maxDepth == 0 then Outcome([], b)
    else
      var (go, b1) := ShouldContinueAt(b, clock);
      if !go then Outcome([], b1)
      else PatternEntries(Entries(d), path, pattern, remaining, base, maxDepth, b1, clock)
  }

  /** The loop over the entries `es`, which stops as soon as the budget says so. */
  function PatternEntries(es: seq<Dir>, path: Path, pattern: string, remaining: seq<string>, base: int,
                          maxDepth: nat, b: Budget, clock: Clock): Outcome
    requires maxDepth > 0
    decreases maxDepth, 0, |es|
  {
    if es == [] then Outcome([], b)
    else
      var (go, b1) := ShouldContinueAt(b, clock);
      if !go then Outcome([], b1)
      else
        var e := es[0];
        var here := PatternHere(e, path, pattern, remaining, base, maxDepth, b1, clock);
        var deeper := PatternDeeper(e, path, pattern, remaining, base, maxDepth, here.budget, clock);
        var rest := PatternEntries(es[1..], path, pattern, remaining, base, maxDepth, deeper.budget, clock);
        Outcome(here.found + deeper.found + rest.found, rest.budget)
  }

  /** Matching the entry `e` against the pattern: a result for the last pattern, or the search for the next one below `e`. */
  function PatternHere(e: Dir, path: Path, pattern: string, remaining: seq<string>, base: int,
                       maxDepth: nat, b: Budget, clock: Clock): Outcome
    requires maxDepth > 0
    decreases maxDepth, 0, 0
  {
    if !PatternHit(e.name, pattern) then Outcome([], b)
    else if remaining == [] then
      Outcome([DirectoryMatch(path + [e.name], base + 1, PatternQuality(e.name, pattern, base))], AddMatchTo(b))
    else PatternWalk(e, path + [e.name], remaining[0], remaining[1..], base + 1, maxDepth - 1, b, clock)
  }

  /** The search for the same pattern below `e`, whether or not `e` matched, while the budget allows. */
  function PatternDeeper(e: Dir, path: Path, pattern: string, remaining: seq<string>, base: int,
                         maxDepth: nat, b: Budget, clock: Clock): Outcome
    requires maxDepth > 0
    decreases maxDepth, 0, 0
  {
    var (go, b1) := ShouldContinueAt(b, clock);
    if go then PatternWalk(e, path + [e.name], pattern, remaining, base + 1, maxDepth - 1, b1, clock)
    else Outcome([], b1)
  }

  /**
   * `search_pattern_recursive_fast`: appends to `matches` what `PatternWalk`
   * finds and leaves the context with the budget `PatternWalk` ends with.
   */
  method SearchPatternRecursiveFast(d: Dir, path: Path, pattern: string, remaining: seq<string>,
                                    matches: seq<DirectoryMatch>, ctx: SearchContext, base: int, maxDepth: nat)
    returns (matches': seq<DirectoryMatch>)
    requires ctx.Valid()
    modifies ctx
    ensures ctx.Valid()
    ensures matches' == matches + PatternWalk(d, path, pattern, remaining, base, maxDepth, old(ctx.State()), ctx.clock).found
    ensures ctx.State() == PatternWalk(d, path, pattern, remaining, base, maxDepth, old(ctx.State()), ctx.clock).budget
    decreases maxDepth, 1, 0
  {
    matches' := matches;
    if maxDepth == 0 {
      return;
    }
    var go := ctx.ShouldContinue();
    if !go {
      return;
    }
    var es := Entries(d);
    ghost var total := PatternEntries(es, path, pattern, remaining, base, maxDepth, ctx.State(), ctx.clock);
    var i := 0;
    while i < |es|
      invariant 0 <= i <= |es|
      invariant ctx.Valid()
      invariant var r := PatternEntries(es[i..], path, pattern, remaining, base, maxDepth, ctx.State(), ctx.clock);
        matches' + r.found == matches + total.found && r.budget == total.budget
    {
      ghost var before, seen := ctx.State(), matches';
      PatternEntriesStep(es, i, path, pattern, remaining, base, maxDepth, before, ctx.clock);
      go := ctx.ShouldContinue();
      if !go {
        assert matches' + [] == matches';
        break;
      }
      ghost var entered := ctx.State();
      matches' := MatchEntry(es[i], path, pattern, remaining, matches', ctx, base, maxDepth);
      ghost var here := PatternHere(es[i], path, pattern, remaining, base, maxDepth, entered, ctx.clock);
      matches' := DescendEntry(es[i], path, pattern, remaining, matches', ctx, base, maxDepth);
      ghost var deeper := PatternDeeper(es[i], path, pattern, remaining, base, maxDepth, here.budget, ctx.clock);
      ghost var rest := PatternEntries(es[i + 1..], path, pattern, remaining, base, maxDepth, deeper.budget, ctx.clock);
      Regroup(seen, here.found, deeper.found, rest.found);
      i := i + 1;
    }
  }

  /**
   * The body of the entry loop for one entry `e`: when its name contains
   * the pattern, either records it (last pattern) or searches below it for
   * the next pattern. Proved against `PatternHere`.
   */
  method MatchEntry(e: Dir, path: Path, pattern: string, remaining: seq<string>,
                    matches: seq<DirectoryMatch>, ctx: SearchContext, base: int, maxDepth: nat)
    returns (matches': seq<DirectoryMatch>)
    requires ctx.Valid() && maxDepth > 0
    modifies ctx
    ensures ctx.Valid()
    ensures matches' == matches + PatternHere(e, path, pattern, remaining, base, maxDepth, old(ctx.State()), ctx.clock).found
    ensures ctx.State() == PatternHere(e, path, pattern, remaining, base, maxDepth, old(ctx.State()), ctx.clock).budget
    decreases maxDepth, 0, 0
  {
    matches' := matches;
    if Contains(Lower(e.name), Lower(pattern)) {
      if remaining == [] {
        var quality := PatternQuality(e.name, pattern, base);
        matches' := matches' + [DirectoryMatch(path + [e.name], base + 1, quality)];
        ctx.AddMatch();
      } else {
        matches' := SearchPatternRecursiveFast(e, path + [e.name], remaining[0], remaining[1..], matches', ctx, base + 1, maxDepth - 1);
      }
    } else {
      assert matches' == matches + [];
    }
  }

  /** The rest of the loop body: the same pattern one level below `e`, while the budget allows. Proved against `PatternDeeper`. */
  method DescendEntry(e: Dir, path: Path, pattern: string, remaining: seq<string>,
                      matches: seq<DirectoryMatch>, ctx: SearchContext, base: int, maxDepth: nat)
    returns (matches': seq<DirectoryMatch>)
    requires ctx.Valid() && maxDepth > 0
    modifies ctx
    ensures ctx.Valid()
    ensures matches' == matches + PatternDeeper(e, path, pattern, remaining, base, maxDepth, old(ctx.State()), ctx.clock).found
    ensures ctx.State() == PatternDeeper(e, path, pattern, remaining, base, maxDepth, old(ctx.State()), ctx.clock).budget
    decreases maxDepth, 0, 0
  {
    matches' := matches;
    var go := ctx.ShouldContinue();
    if go {
      matches' := SearchPatternRecursiveFast(e, path + [e.name], pattern, remaining, matches', ctx, base + 1, maxDepth - 1);
    } else {
      assert matches' == matches + [];
    }
  }

  /** One round of the entry loop, unfolded. */
  lemma PatternEntriesStep(es: seq<Dir>, i: nat, path: Path, pattern: string, remaining: seq<string>, base: int,
                           maxDepth: nat, b: Budget, clock: Clock)
    requires i < |es| && maxDepth > 0
    ensures var (go, b1) := ShouldContinueAt(b, clock);
      var here := PatternHere(es[i], path, pattern, remaining, base, maxDepth, b1, clock);
      var deeper := PatternDeeper(es[i], path, pattern, remaining, base, maxDepth, here.budget, clock);
      var rest := PatternEntries(es[i + 1..], path, pattern, remaining, base, maxDepth, deeper.budget, clock);
      PatternEntries(es[i..], path, pattern, remaining, base, maxDepth, b, clock)
        == if !go then Outcome([], b1) else Outcome(here.found + deeper.found + rest.found, rest.budget)
  {
    assert es[i..][1..] == es[i + 1..];
    assert es[i..][0] == es[i];
  }

  // ----- search_path_pattern_fast -----

  /**
   * The first pattern tried against the ancestors `cwd[..k - 1]`,
   * `cwd[..k - 2]`, ...: at most `UP_LIMIT` of them, nearest first, each
   * after a budget check. The ancestor `cwd[..j]` has depth `j - |cwd|`.
   */
  function UpPattern(root: Dir, cwd: Path, first: string, remaining: seq<string>, k: nat, b: Budget, clock: Clock): Outcome
    requires k <= |cwd|
    decreases k
  {
    if k == 0 then Outcome([], b)
    else
      var (go, b1) := ShouldContinueAt(b, clock);
      if !go || |cwd| - k >= UP_LIMIT then Outcome([], b1)
      else
        var here := UpHere(root, cwd, first, remaining, k, b1, clock);
        var rest := UpPattern(root, cwd, first, remaining, k - 1, here.budget, clock);
        Outcome(here.found + rest.found, rest.budget)
  }

  /** The parent `cwd[..k - 1]` tried against the first pattern; the root has no name and is skipped. */
  function UpHere(root: Dir, cwd: Path, first: string, remaining: seq<string>, k: nat, b: Budget, clock: Clock): Outcome
    requires 1 <= k <= |cwd|
  {
    var parent := cwd[..k - 1];
    var depth := k - 1 - |cwd|;
    if k - 1 == 0 || !PatternHit(cwd[k - 2], first) then Outcome([], b)
    else if remaining == [] then
      var quality := if Lower(cwd[k - 2]) == Lower(first) then ExactUp else PartialUp;
      Outcome([DirectoryMatch(parent, depth, quality)], AddMatchTo(b))
    else PatternWalk(DirAt(root, parent), parent, remaining[0], remaining[1..], depth, PATTERN_DEPTH, b, clock)
  }

  /**
   * `search_path_pattern_fast` from the directory `cwd`: the patterns below
   * `cwd`, then the first pattern among its ancestors. `Split` never returns
   * an empty list, so only the budget can stop the search at the start.
   */
  function PathPattern(root: Dir, cwd: Path, term: string, b: Budget, clock: Clock): Outcome {
    var parts := Split(term, '/');
    var (go, b1) := ShouldContinueAt(b, clock);
    if !go then Outcome([], b1)
    else
      var down := PatternWalk(DirAt(root, cwd), cwd, parts[0], parts[1..], 0, PATTERN_DEPTH, b1, clock);
      var up := UpPattern(root, cwd, parts[0], parts[1..], |cwd|, down.budget, clock);
      Outcome(down.found + up.found, up.budget)
  }

  /** `search_path_pattern_fast`: appends what `PathPattern` finds. */
  method SearchPathPatternFast(root: Dir, cwd: Path, term: string, matches: seq<DirectoryMatch>, ctx: SearchContext)
    returns (matches': seq<DirectoryMatch>)
    requires ctx.Valid()
    modifies ctx
    ensures ctx.Valid()
    ensures matches' == matches + PathPattern(root, cwd, term, old(ctx.State()), ctx.clock).found
    ensures ctx.State() == PathPattern(root, cwd, term, old(ctx.State()), ctx.clock).budget
  {
    var parts := Split(term, '/');
    matches' := matches;
    var go := ctx.ShouldContinue();
    if !go {
      return;
    }
    var first, rest := parts[0], parts[1..];
    ghost var started := ctx.State();
    ghost var down := PatternWalk(DirAt(root, cwd), cwd, first, rest, 0, PATTERN_DEPTH, started, ctx.clock);
    matches' := SearchPatternRecursiveFast(DirAt(root, cwd), cwd, first, rest, matches', ctx, 0, PATTERN_DEPTH);
    ghost var total := UpPattern(root, cwd, first, rest, |cwd|, ctx.State(), ctx.clock);
    var k := |cwd|;
    var depth := -1;
    var upCount := 0;
    while k > 0
      invariant 0 <= k <= |cwd|
      invariant depth == k - 1 - |cwd| && upCount == |cwd| - k
      invariant ctx.Valid()
      invariant var r := UpPattern(root, cwd, first, rest, k, ctx.State(), ctx.clock);
        matches' + r.found == matches + down.found + total.found && r.budget == total.budget
      decreases k
    {
      ghost var seen, before := matches', ctx.State();
      UpPatternStep(root, cwd, first, rest, k, before, ctx.clock);
      go := ctx.ShouldContinue();
      if !go || upCount >= UP_LIMIT {
        assert matches' + [] == matches';
        break;
      }
      ghost var entered := ctx.State();
      var parent := cwd[..k - 1];
      if |parent| > 0 {
        var name := parent[|parent| - 1];
        assert name == cwd[k - 2];
        if Contains(Lower(name), Lower(first)) {
          if rest == [] {
            var quality := if Lower(name) == Lower(first) then ExactUp else PartialUp;
            matches' := matches' + [DirectoryMatch(parent, depth, quality)];
            ctx.AddMatch();
          } else {
            matches' := SearchPatternRecursiveFast(DirAt(root, parent), parent, rest[0], rest[1..], matches', ctx, depth, PATTERN_DEPTH);
          }
        }
      }
      ghost var here := UpHere(root, cwd, first, rest, k, entered, ctx.clock);
      assert matches' == seen + here.found && ctx.State() == here.budget;
      ghost var later := UpPattern(root, cwd, first, rest, k - 1, here.budget, ctx.clock);
      Assoc(seen, here.found, later.found);
      k := k - 1;
      depth := depth - 1;
      upCount := upCount + 1;
    }
    Assoc(matches, down.found, total.found);
    assert PathPattern(root, cwd, term, old(ctx.State()), ctx.clock) == Outcome(down.found + total.found, total.budget);
  }

  /** One round of the ancestor loop, unfolded. */
  lemma UpPatternStep(root: Dir, cwd: Path, first: string, remaining: seq<string>, k: nat, b: Budget, clock: Clock)
    requires 1 <= k <= |cwd|
    ensures var (go, b1) := ShouldContinueAt(b, clock);
      var here := UpHere(root, cwd, first, remaining, k, b1, clock);
      var rest := UpPattern(root, cwd, first, remaining, k - 1, here.budget, clock);
      UpPattern(root, cwd, first, remaining, k, b, clock)
        == if !go || |cwd| - k >= UP_LIMIT then Outcome([], b1) else Outcome(here.found + rest.found, rest.budget)
  {
  }

  // ----- the match ceiling -----

  /** Every match is counted, and from a budget within the ceiling the count never passes it. */
  predicate Counted(b: Budget, r: Outcome) {
    && r.budget.matches == b.matches + |r.found|
    && (b.matches <= MAX_MATCHES ==> r.budget.matches <= MAX_MATCHES)
  }

  lemma {:induction false} PatternWalkCounted(d: Dir, path: Path, pattern: string, remaining: seq<string>, base: int,
                                              maxDepth: nat, b: Budget, clock: Clock)
    ensures Counted(b, PatternWalk(d, path, pattern, remaining, base, maxDepth, b, clock))
    decreases maxDepth, 1, 0
  {
    if maxDepth > 0 {
      var (go, b1) := ShouldContinueAt(b, clock);
      if go {
        PatternEntriesCounted(Entries(d), path, pattern, remaining, base, maxDepth, b1, clock);
      }
    }
  }

  lemma {:induction false} PatternEntriesCounted(es: seq<Dir>, path: Path, pattern: string, remaining: seq<string>, base: int,
                                                 maxDepth: nat, b: Budget, clock: Clock)
    requires maxDepth > 0
    ensures Counted(b, PatternEntries(es, path, pattern, remaining, base, maxDepth, b, clock))
    decreases maxDepth, 0, |es|
  {
    if es != [] {
      var (go, b1) := ShouldContinueAt(b, clock);
      if go {
        var e := es[0];
        PatternHereCounted(e, path, pattern, remaining, base, maxDepth, b1, clock);
        var here := PatternHere(e, path, pattern, remaining, base, maxDepth, b1, clock);
        PatternDeeperCounted(e, path, pattern, remaining, base, maxDepth, here.budget, clock);
        var deeper := PatternDeeper(e, path, pattern, remaining, base, maxDepth, here.budget, clock);
        PatternEntriesCounted(es[1..], path, pattern, remaining, base, maxDepth, deeper.budget, clock);
      }
    }
  }

  /** A result is only pushed after the budget said go, so below the ceiling. */
  lemma {:induction false} PatternHereCounted(e: Dir, path: Path, pattern: string, remaining: seq<string>, base: int,
                                              maxDepth: nat, b: Budget, clock: Clock)
    requires maxDepth > 0
    requires b.matches < MAX_MATCHES
    ensures Counted(b, PatternHere(e, path, pattern, remaining, base, maxDepth, b, clock))
    decreases maxDepth, 0, 0
  {
    if PatternHit(e.name, pattern) && remaining != [] {
      PatternWalkCounted(e, path + [e.name], remaining[0], remaining[1..], base + 1, maxDepth - 1, b, clock);
    }
  }

  lemma {:induction false} PatternDeeperCounted(e: Dir, path: Path, pattern: string, remaining: seq<string>, base: int,
                                                maxDepth: nat, b: Budget, clock: Clock)
    requires maxDepth > 0
    ensures Counted(b, PatternDeeper(e, path, pattern, remaining, base, maxDepth, b, clock))
    decreases maxDepth, 0, 0
  {
    var (go, b1) := ShouldContinueAt(b, clock);
    if go {
      PatternWalkCounted(e, path + [e.name], pattern, remaining, base + 1, maxDepth - 1, b1, clock);
    }
  }

  lemma {:induction false} UpPatternCounted(root: Dir, cwd: Path, first: string, remaining: seq<string>, k: nat, b: Budget, clock: Clock)
    requires k <= |cwd|
    ensures Counted(b, UpPattern(root, cwd, first, remaining, k, b, clock))
    decreases k
  {
    if k > 0 {
      var (go, b1) := ShouldContinueAt(b, clock);
      if go && |cwd| - k < UP_LIMIT {
        var parent := cwd[..k - 1];
        if k - 1 > 0 && PatternHit(cwd[k - 2], first) && remaining != [] {
          PatternWalkCounted(DirAt(root, parent), parent, remaining[0], remaining[1..], k - 1 - |cwd|, PATTERN_DEPTH, b1, clock);
        }
        var here := UpHere(root, cwd, first, remaining, k, b1, clock);
        UpPatternCounted(root, cwd, first, remaining, k - 1, here.budget, clock);
      }
    }
  }

  /**
   * The slash-pattern search counts every match it appends, and from a
   * context within the ceiling it never appends more than the ceiling
   * allows: at most 20 from a fresh context.
   */
  lemma PathPatternCounted(root: Dir, cwd: Path, term: string, b: Budget, clock: Clock)
    ensures var r := PathPattern(root, cwd, term, b, clock);
      && r.budget.matches == b.matches + |r.found|
      && (b.matches <= MAX_MATCHES ==> |r.found| <= MAX_MATCHES - b.matches)
  {
    var parts := Split(term, '/');
    var (go, b1) := ShouldContinueAt(b, clock);
    if go {
      PatternWalkCounted(DirAt(root, cwd), cwd, parts[0], parts[1..], 0, PATTERN_DEPTH, b1, clock);
      var down := PatternWalk(DirAt(root, cwd), cwd, parts[0], parts[1..], 0, PATTERN_DEPTH, b1, clock);
      UpPatternCounted(root, cwd, parts[0], parts[1..], |cwd|, down.budget, clock);
    }
  }

  // ----- where the results are -----

  /**
   * The pieces of a slash pattern matched along the path `p`, below its
   * first `from` components: the directory `p[..ps[k]]` has a name that
   * contains `pieces[k]`, each piece is matched strictly deeper than the one
   * before, and the last piece is matched by `p` itself.
   */
  predicate Chain(p: Path, from: nat, pieces: seq<string>, ps: seq<nat>) {
    Rising(ps, from, |p|) && Hits(p, pieces, ps)
  }

  /** Positions strictly increasing from above `from` up to `top`, which is the last. */
  predicate Rising(ps: seq<nat>, from: nat, top: nat) {
    && ps != []
    && (forall k :: 0 <= k < |ps| ==> from < ps[k] <= top)
    && (forall i, j :: 0 <= i < j < |ps| ==> ps[i] < ps[j])
    && ps[|ps| - 1] == top
  }

  /** The directory `p[..ps[0]]` has a name that contains `pieces[0]`, and so on for the rest. */
  predicate Hits(p: Path, pieces: seq<string>, ps: seq<nat>)
    decreases |ps|
  {
    && |ps| == |pieces|
    && (ps != [] ==>
      && 0 < ps[0] <= |p| && PatternHit(p[ps[0] - 1], pieces[0])
      && Hits(p, pieces[1..], ps[1..]))
  }

  /** Read position by position: the `k`-th position is a directory whose name contains the `k`-th piece. */
  lemma {:induction false} HitsIndex(p: Path, pieces: seq<string>, ps: seq<nat>, k: nat)
    requires Hits(p, pieces, ps) && k < |ps|
    ensures 0 < ps[k] <= |p| && PatternHit(p[ps[k] - 1], pieces[k])
    decreases k
  {
    if k > 0 {
      HitsIndex(p, pieces[1..], ps[1..], k - 1);
    }
  }

  /** Some chain matches `pieces` along `p` below its first `from` components. */
  ghost predicate Chained(p: Path, from: nat, pieces: seq<string>) {
    exists ps :: Chain(p, from, pieces, ps)
  }

  /** A directory that matches `piece` just below `from` extends a chain that starts deeper. */
  lemma ChainCons(p: Path, from: nat, piece: string, pieces: seq<string>, ps: seq<nat>)
    requires Chain(p, from + 1, pieces, ps)
    requires from < |p| && PatternHit(p[from], piece)
    ensures Chain(p, from, [piece] + pieces, [from + 1] + ps)
  {
    RisingCons(ps, from, |p|);
    HitsCons(p, from, piece, pieces, ps);
  }

  lemma RisingCons(ps: seq<nat>, from: nat, top: nat)
    requires Rising(ps, from + 1, top)
    ensures Rising([from + 1] + ps, from, top)
  {
    var qs := [from + 1] + ps;
    forall i, j | 0 <= i < j < |qs| ensures qs[i] < qs[j] {
      assert qs[j] == ps[j - 1];
      if i > 0 {
        assert qs[i] == ps[i - 1];
      }
    }
  }

  lemma HitsCons(p: Path, from: nat, piece: string, pieces: seq<string>, ps: seq<nat>)
    requires Hits(p, pieces, ps)
    requires from < |p| && PatternHit(p[from], piece)
    ensures Hits(p, [piece] + pieces, [from + 1] + ps)
  {
    assert ([piece] + pieces)[1..] == pieces && ([from + 1] + ps)[1..] == ps;
  }

  /** A chain below `from` is also a chain below any shallower start. */
  lemma ChainWiden(p: Path, from: nat, to: nat, pieces: seq<string>, ps: seq<nat>)
    requires to <= from && Chain(p, from, pieces, ps)
    ensures Chain(p, to, pieces, ps)
  {
  }

  /**
   * A result of the search below `path` (at depth `base`, at most
   * `maxDepth` levels) for the slash pattern `pieces`: it lies as many
   * levels below `path` as its depth label says, the pieces are matched in
   * order along its path below `path`, the last one by its own name, and its
   * tier is exact when that name equals the last piece and "up" when its
   * parent's depth is negative.
   */
  ghost predicate FoundBelow(m: DirectoryMatch, path: Path, pieces: seq<string>, base: int, maxDepth: nat) {
    && pieces != []
    && base + 1 <= m.depthFromCurrent <= base + maxDepth
    && |m.path| == |path| + (m.depthFromCurrent - base)
    && m.path[..|path|] == path
    && Chained(m.path, |path|, pieces)
    && PatternHit(m.path[|m.path| - 1], pieces[|pieces| - 1])
    && m.matchQuality == PatternQuality(m.path[|m.path| - 1], pieces[|pieces| - 1], m.depthFromCurrent - 1)
  }

  /** A result below the entry `name` is a result below its directory, for the same pieces. */
  lemma FoundBelowChild(m: DirectoryMatch, path: Path, name: string, pieces: seq<string>, base: int, maxDepth: nat)
    requires maxDepth > 0
    requires FoundBelow(m, path + [name], pieces, base + 1, maxDepth - 1)
    ensures FoundBelow(m, path, pieces, base, maxDepth)
  {
    assert m.path[..|path|] == m.path[..|path| + 1][..|path|];
    var ps :| Chain(m.path, |path| + 1, pieces, ps);
    assert Chain(m.path, |path|, pieces, ps);
  }

  /** A result for the later pieces below an entry whose name matches `pattern` is a result for all the pieces. */
  lemma FoundBelowNext(m: DirectoryMatch, path: Path, name: string, pattern: string, remaining: seq<string>,
                       base: int, maxDepth: nat)
    requires maxDepth > 0 && PatternHit(name, pattern)
    requires FoundBelow(m, path + [name], remaining, base + 1, maxDepth - 1)
    ensures FoundBelow(m, path, [pattern] + remaining, base, maxDepth)
  {
    FoundBelowChild(m, path, name, remaining, base, maxDepth);
    ChainNext(m.path, path, name, pattern, remaining);
    FoundBelowPieces(m, path, remaining, [pattern] + remaining, base, maxDepth);
  }

  /** A chain below the entry `name` of `path` extends to one below `path` when `name` matches `pattern`. */
  lemma ChainNext(p: Path, path: Path, name: string, pattern: string, remaining: seq<string>)
    requires |path| < |p| && p[..|path| + 1] == path + [name] && PatternHit(name, pattern)
    requires Chained(p, |path| + 1, remaining)
    ensures Chained(p, |path|, [pattern] + remaining)
  {
    var ps :| Chain(p, |path| + 1, remaining, ps);
    assert p[|path|] == p[..|path| + 1][|path|];
    ChainCons(p, |path|, pattern, remaining, ps);
  }

  /** Another chain of pieces along the same path, ending in the same piece, places `m` just as well. */
  lemma FoundBelowPieces(m: DirectoryMatch, path: Path, pieces: seq<string>, pieces': seq<string>,
                         base: int, maxDepth: nat)
    requires FoundBelow(m, path, pieces, base, maxDepth)
    requires Chained(m.path, |path|, pieces') && pieces' != []
    requires pieces'[|pieces'| - 1] == pieces[|pieces| - 1]
    ensures FoundBelow(m, path, pieces', base, maxDepth)
  {
  }

  lemma {:induction false} PatternWalkFound(d: Dir, path: Path, pattern: string, remaining: seq<string>, base: int,
                                            maxDepth: nat, b: Budget, clock: Clock)
    ensures forall m :: m in PatternWalk(d, path, pattern, remaining, base, maxDepth, b, clock).found ==>
      FoundBelow(m, path, [pattern] + remaining, base, maxDepth)
    decreases maxDepth, 1, 0
  {
    if maxDepth > 0 {
      var (go, b1) := ShouldContinueAt(b, clock);
      if go {
        PatternEntriesFound(Entries(d), path, pattern, remaining, base, maxDepth, b1, clock);
      }
    }
  }

  lemma {:induction false} PatternEntriesFound(es: seq<Dir>, path: Path, pattern: string, remaining: seq<string>, base: int,
                                               maxDepth: nat, b: Budget, clock: Clock)
    requires maxDepth > 0
    ensures forall m :: m in PatternEntries(es, path, pattern, remaining, base, maxDepth, b, clock).found ==>
      FoundBelow(m, path, [pattern] + remaining, base, maxDepth)
    decreases maxDepth, 0, |es|
  {
    if es != [] {
      var (go, b1) := ShouldContinueAt(b, clock);
      if go {
        var e := es[0];
        PatternHereFound(e, path, pattern, remaining, base, maxDepth, b1, clock);
        var here := PatternHere(e, path, pattern, remaining, base, maxDepth, b1, clock);
        PatternDeeperFound(e, path, pattern, remaining, base, maxDepth, here.budget, clock);
        var deeper := PatternDeeper(e, path, pattern, remaining, base, maxDepth, here.budget, clock);
        PatternEntriesFound(es[1..], path, pattern, remaining, base, maxDepth, deeper.budget, clock);
      }
    }
  }

  lemma {:induction false} PatternHereFound(e: Dir, path: Path, pattern: string, remaining: seq<string>, base: int,
                                            maxDepth: nat, b: Budget, clock: Clock)
    requires maxDepth > 0
    ensures forall m :: m in PatternHere(e, path, pattern, remaining, base, maxDepth, b, clock).found ==>
      FoundBelow(m, path, [pattern] + remaining, base, maxDepth)
    decreases maxDepth, 0, 0
  {
    if PatternHit(e.name, pattern) {
      if remaining == [] {
        var m := DirectoryMatch(path + [e.name], base + 1, PatternQuality(e.name, pattern, base));
        assert m.path[..|path|] == path;
        assert Chain(m.path, |path|, [pattern], [|path| + 1]);
        assert [pattern] + remaining == [pattern];
      } else {
        var r := PatternWalk(e, path + [e.name], remaining[0], remaining[1..], base + 1, maxDepth - 1, b, clock);
        PatternWalkFound(e, path + [e.name], remaining[0], remaining[1..], base + 1, maxDepth - 1, b, clock);
        assert [remaining[0]] + remaining[1..] == remaining;
        forall m | m in r.found ensures FoundBelow(m, path, [pattern] + remaining, base, maxDepth) {
          FoundBelowNext(m, path, e.name, pattern, remaining, base, maxDepth);
        }
      }
    }
  }

  lemma {:induction false} PatternDeeperFound(e: Dir, path: Path, pattern: string, remaining: seq<string>, base: int,
                                              maxDepth: nat, b: Budget, clock: Clock)
    requires maxDepth > 0
    ensures forall m :: m in PatternDeeper(e, path, pattern, remaining, base, maxDepth, b, clock).found ==>
      FoundBelow(m, path, [pattern] + remaining, base, maxDepth)
    decreases maxDepth, 0, 0
  {
    var (go, b1) := ShouldContinueAt(b, clock);
    if go {
      var r := PatternWalk(e, path + [e.name], pattern, remaining, base + 1, maxDepth - 1, b1, clock);
      PatternWalkFound(e, path + [e.name], pattern, remaining, base + 1, maxDepth - 1, b1, clock);
      forall m | m in r.found ensures FoundBelow(m, path, [pattern] + remaining, base, maxDepth) {
        FoundBelowChild(m, path, e.name, [pattern] + remaining, base, maxDepth);
      }
    }
  }

  /** Every result of the search below `d` names a directory of the tree below `d`. */
  lemma {:induction false} PatternWalkInTree(d: Dir, path: Path, pattern: string, remaining: seq<string>, base: int,
                                             maxDepth: nat, b: Budget, clock: Clock)
    ensures forall m :: m in PatternWalk(d, path, pattern, remaining, base, maxDepth, b, clock).found ==>
      |path| < |m.path| && m.path[..|path|] == path && Reachable(d, m.path[|path|..])
    decreases maxDepth, 1, 0
  {
    if maxDepth > 0 {
      var (go, b1) := ShouldContinueAt(b, clock);
      if go {
        PatternEntriesInTree(Entries(d), d, path, pattern, remaining, base, maxDepth, b1, clock);
      }
    }
  }

  lemma {:induction false} PatternEntriesInTree(es: seq<Dir>, d: Dir, path: Path, pattern: string, remaining: seq<string>,
                                                base: int, maxDepth: nat, b: Budget, clock: Clock)
    requires maxDepth > 0 && forall e :: e in es ==> e in Entries(d)
    ensures forall m :: m in PatternEntries(es, path, pattern, remaining, base, maxDepth, b, clock).found ==>
      |path| < |m.path| && m.path[..|path|] == path && Reachable(d, m.path[|path|..])
    decreases maxDepth, 0, |es|
  {
    if es != [] {
      var (go, b1) := ShouldContinueAt(b, clock);
      if go {
        var e := es[0];
        PatternHereInTree(e, d, path, pattern, remaining, base, maxDepth, b1, clock);
        var here := PatternHere(e, path, pattern, remaining, base, maxDepth, b1, clock);
        PatternDeeperInTree(e, d, path, pattern, remaining, base, maxDepth, here.budget, clock);
        var deeper := PatternDeeper(e, path, pattern, remaining, base, maxDepth, here.budget, clock);
        PatternEntriesInTree(es[1..], d, path, pattern, remaining, base, maxDepth, deeper.budget, clock);
      }
    }
  }

  lemma {:induction false} PatternHereInTree(e: Dir, d: Dir, path: Path, pattern: string, remaining: seq<string>,
                                             base: int, maxDepth: nat, b: Budget, clock: Clock)
    requires maxDepth > 0 && e in Entries(d)
    ensures forall m :: m in PatternHere(e, path, pattern, remaining, base, maxDepth, b, clock).found ==>
      |path| < |m.path| && m.path[..|path|] == path && Reachable(d, m.path[|path|..])
    decreases maxDepth, 0, 0
  {
    if PatternHit(e.name, pattern) {
      if remaining == [] {
        var p := path + [e.name];
        assert Descent(e, []) && Names([]) == [];
        assert p[..|path| + 1] == path + [e.name] && p[|path| + 1..] == [];
        EntryReach(d, e, path, p);
      } else {
        var r := PatternWalk(e, path + [e.name], remaining[0], remaining[1..], base + 1, maxDepth - 1, b, clock);
        PatternWalkInTree(e, path + [e.name], remaining[0], remaining[1..], base + 1, maxDepth - 1, b, clock);
        forall m | m in r.found ensures |path| < |m.path| && m.path[..|path|] == path && Reachable(d, m.path[|path|..]) {
          EntryReach(d, e, path, m.path);
        }
      }
    }
  }

  lemma {:induction false} PatternDeeperInTree(e: Dir, d: Dir, path: Path, pattern: string, remaining: seq<string>,
                                               base: int, maxDepth: nat, b: Budget, clock: Clock)
    requires maxDepth > 0 && e in Entries(d)
    ensures forall m :: m in PatternDeeper(e, path, pattern, remaining, base, maxDepth, b, clock).found ==>
      |path| < |m.path| && m.path[..|path|] == path && Reachable(d, m.path[|path|..])
    decreases maxDepth, 0, 0
  {
    var (go, b1) := ShouldContinueAt(b, clock);
    if go {
      var r := PatternWalk(e, path + [e.name], pattern, remaining, base + 1, maxDepth - 1, b1, clock);
      PatternWalkInTree(e, path + [e.name], pattern, remaining, base + 1, maxDepth - 1, b1, clock);
      forall m | m in r.found ensures |path| < |m.path| && m.path[..|path|] == path && Reachable(d, m.path[|path|..]) {
        EntryReach(d, e, path, m.path);
      }
    }
  }

  /** A path through the entry `e` of `d` that goes on into the tree below `e` goes on into the tree below `d`. */
  lemma EntryReach(d: Dir, e: Dir, path: Path, p: Path)
    requires e in Entries(d) && |path| < |p| && p[..|path| + 1] == path + [e.name]
    requires Reachable(e, p[|path| + 1..])
    ensures p[..|path|] == path && Reachable(d, p[|path|..])
  {
    ReachableThrough(d, e, p[|path| + 1..]);
    assert p[|path|] == p[..|path| + 1][|path|];
    assert p[|path|..] == [e.name] + p[|path| + 1..];
    assert p[..|path|] == p[..|path| + 1][..|path|];
  }

  /**
   * A result of the whole search, relative to the start directory `cwd`:
   * its depth label is its distance from `cwd` in levels (between 10 above
   * and 3 below), its name contains the last pattern, and its tier is
   * exact when the names are equal and "up" exactly when its label is not
   * positive.
   */
  predicate FoundFrom(m: DirectoryMatch, cwd: Path, last: string) {
    && -(UP_LIMIT as int) <= m.depthFromCurrent <= PATTERN_DEPTH
    && |m.path| == |cwd| + m.depthFromCurrent
    && |m.path| > 0
    && PatternHit(m.path[|m.path| - 1], last)
    && m.matchQuality == PatternQuality(m.path[|m.path| - 1], last, m.depthFromCurrent - 1)
    && (IsUp(m.matchQuality) <==> m.depthFromCurrent <= 0)
  }

  /**
   * The first piece is matched by one of the nearest `UP_LIMIT` named
   * proper ancestors of `cwd`, `cwd[..ps[0]]`, and the other pieces in order
   * below it along `m`'s path.
   */
  ghost predicate FromAncestor(m: DirectoryMatch, cwd: Path, pieces: seq<string>) {
    exists ps :: Chain(m.path, 0, pieces, ps) && 1 <= ps[0] < |cwd| && |cwd| - ps[0] <= UP_LIMIT
      && m.path[..ps[0]] == cwd[..ps[0]]
  }

  /** `m` lies strictly below `cwd`, and the pieces are matched in order along its path below `cwd`. */
  ghost predicate BelowStart(m: DirectoryMatch, cwd: Path, pieces: seq<string>) {
    && m.depthFromCurrent >= 1
    && |cwd| <= |m.path| && m.path[..|cwd|] == cwd
    && Chained(m.path, |cwd|, pieces)
  }

  /** What one ancestor contributes. */
  lemma UpHereFound(root: Dir, cwd: Path, first: string, remaining: seq<string>, k: nat, b: Budget, clock: Clock)
    requires 1 <= k <= |cwd| && |cwd| - k < UP_LIMIT
    ensures var pieces := [first] + remaining;
      forall m :: m in UpHere(root, cwd, first, remaining, k, b, clock).found ==>
        FoundFrom(m, cwd, pieces[|pieces| - 1]) && FromAncestor(m, cwd, pieces)
  {
    var pieces := [first] + remaining;
    var parent := cwd[..k - 1];
    var j := k - 1;
    var depth := k - 1 - |cwd|;
    var here := UpHere(root, cwd, first, remaining, k, b, clock);
    if k - 1 > 0 && PatternHit(cwd[k - 2], first) {
      if remaining == [] {
        var m := here.found[0];
        assert m.path[|m.path| - 1] == cwd[k - 2];
        assert Chain(m.path, 0, pieces, [j]);
        assert m.path[..j] == cwd[..j];
      } else {
        PatternWalkFound(DirAt(root, parent), parent, remaining[0], remaining[1..], depth, PATTERN_DEPTH, b, clock);
        assert [remaining[0]] + remaining[1..] == remaining;
        forall m | m in here.found
          ensures FoundFrom(m, cwd, pieces[|pieces| - 1]) && FromAncestor(m, cwd, pieces)
        {
          assert FoundBelow(m, parent, remaining, depth, PATTERN_DEPTH);
          UpChain(m, cwd, k, first, remaining);
        }
      }
    }
  }

  /** A result below the ancestor `cwd[..k - 1]` for the later pieces, when that ancestor matches the first. */
  lemma UpChain(m: DirectoryMatch, cwd: Path, k: nat, first: string, remaining: seq<string>)
    requires 2 <= k <= |cwd| && |cwd| - k < UP_LIMIT && PatternHit(cwd[k - 2], first)
    requires FoundBelow(m, cwd[..k - 1], remaining, k - 1 - |cwd|, PATTERN_DEPTH)
    ensures var pieces := [first] + remaining;
      FoundFrom(m, cwd, pieces[|pieces| - 1]) && FromAncestor(m, cwd, pieces)
  {
    UpPlaced(m, cwd, k, remaining);
    assert ([first] + remaining)[|remaining|] == remaining[|remaining| - 1];
    AncestorChain(m, cwd, k - 1, first, remaining);
  }

  /** The ancestor `cwd[..j]` matches the first piece and the later pieces are matched below it. */
  lemma AncestorChain(m: DirectoryMatch, cwd: Path, j: nat, first: string, remaining: seq<string>)
    requires 1 <= j < |cwd| && |cwd| - j <= UP_LIMIT && PatternHit(cwd[j - 1], first)
    requires j <= |m.path| && m.path[..j] == cwd[..j] && Chained(m.path, j, remaining)
    ensures FromAncestor(m, cwd, [first] + remaining)
  {
    var ps :| Chain(m.path, j, remaining, ps);
    assert m.path[j - 1] == m.path[..j][j - 1];
    ChainCons(m.path, j - 1, first, remaining, ps);
    ChainWiden(m.path, j - 1, 0, [first] + remaining, [j] + ps);
    assert ([j] + ps)[0] == j;
  }

  /** A result below the ancestor `cwd[..k - 1]` is placed as `FoundFrom` says. */
  lemma UpPlaced(m: DirectoryMatch, cwd: Path, k: nat, pieces: seq<string>)
    requires 2 <= k <= |cwd| && |cwd| - k < UP_LIMIT
    requires FoundBelow(m, cwd[..k - 1], pieces, k - 1 - |cwd|, PATTERN_DEPTH)
    ensures FoundFrom(m, cwd, pieces[|pieces| - 1])
  {
  }

  lemma {:induction false} UpPatternFound(root: Dir, cwd: Path, first: string, remaining: seq<string>, k: nat, b: Budget, clock: Clock)
    requires k <= |cwd|
    ensures var pieces := [first] + remaining;
      forall m :: m in UpPattern(root, cwd, first, remaining, k, b, clock).found ==>
        FoundFrom(m, cwd, pieces[|pieces| - 1]) && FromAncestor(m, cwd, pieces)
    decreases k
  {
    if k > 0 {
      var (go, b1) := ShouldContinueAt(b, clock);
      if go && |cwd| - k < UP_LIMIT {
        UpHereFound(root, cwd, first, remaining, k, b1, clock);
        var here := UpHere(root, cwd, first, remaining, k, b1, clock);
        UpPatternFound(root, cwd, first, remaining, k - 1, here.budget, clock);
      }
    }
  }

  /**
   * A result of the slash-pattern search for the pieces `parts` from
   * `cwd`: placed as `FoundFrom` says for the last piece, with the pieces
   * matched in order along its path, either from a named ancestor at most
   * 10 levels up or from `cwd` down.
   */
  ghost predicate PatternResult(m: DirectoryMatch, cwd: Path, parts: seq<string>) {
    && parts != []
    && FoundFrom(m, cwd, parts[|parts| - 1])
    && (FromAncestor(m, cwd, parts) || BelowStart(m, cwd, parts))
  }

  /** Every result of the slash-pattern search is a `PatternResult` for the `/`-separated pieces of the term. */
  lemma PathPatternFound(root: Dir, cwd: Path, term: string, b: Budget, clock: Clock)
    ensures forall m :: m in PathPattern(root, cwd, term, b, clock).found ==> PatternResult(m, cwd, Split(term, '/'))
  {
    var parts := Split(term, '/');
    var (go, b1) := ShouldContinueAt(b, clock);
    if go {
      var down := PatternWalk(DirAt(root, cwd), cwd, parts[0], parts[1..], 0, PATTERN_DEPTH, b1, clock);
      var up := UpPattern(root, cwd, parts[0], parts[1..], |cwd|, down.budget, clock);
      PatternResults(root, cwd, parts, b1, clock, down, up);
      assert PathPattern(root, cwd, term, b, clock).found == down.found + up.found;
    } else {
      assert PathPattern(root, cwd, term, b, clock).found == [];
    }
  }

  /** The matches below `cwd` followed by those from its ancestors, for the pieces `parts`. */
  lemma PatternResults(root: Dir, cwd: Path, parts: seq<string>, b: Budget, clock: Clock, down: Outcome, up: Outcome)
    requires parts != []
    requires down == PatternWalk(DirAt(root, cwd), cwd, parts[0], parts[1..], 0, PATTERN_DEPTH, b, clock)
    requires up == UpPattern(root, cwd, parts[0], parts[1..], |cwd|, down.budget, clock)
    ensures forall m :: m in down.found + up.found ==> PatternResult(m, cwd, parts)
  {
    DownResults(root, cwd, parts, b, clock);
    UpResults(root, cwd, parts, down.budget, clock);
    JoinResults(cwd, parts, down.found, up.found);
  }

  lemma DownResults(root: Dir, cwd: Path, parts: seq<string>, b: Budget, clock: Clock)
    requires parts != []
    ensures forall m :: m in PatternWalk(DirAt(root, cwd), cwd, parts[0], parts[1..], 0, PATTERN_DEPTH, b, clock).found ==>
      FoundFrom(m, cwd, parts[|parts| - 1]) && BelowStart(m, cwd, parts)
  {
    PatternWalkFound(DirAt(root, cwd), cwd, parts[0], parts[1..], 0, PATTERN_DEPTH, b, clock);
    assert [parts[0]] + parts[1..] == parts;
    forall m | m in PatternWalk(DirAt(root, cwd), cwd, parts[0], parts[1..], 0, PATTERN_DEPTH, b, clock).found
      ensures FoundFrom(m, cwd, parts[|parts| - 1]) && BelowStart(m, cwd, parts)
    {
      FoundBelowStart(m, cwd, parts);
    }
  }

  lemma UpResults(root: Dir, cwd: Path, parts: seq<string>, b: Budget, clock: Clock)
    requires parts != []
    ensures forall m :: m in UpPattern(root, cwd, parts[0], parts[1..], |cwd|, b, clock).found ==>
      FoundFrom(m, cwd, parts[|parts| - 1]) && FromAncestor(m, cwd, parts)
  {
    UpPatternFound(root, cwd, parts[0], parts[1..], |cwd|, b, clock);
    assert [parts[0]] + parts[1..] == parts;
  }

  lemma JoinResults(cwd: Path, parts: seq<string>, down: seq<DirectoryMatch>, up: seq<DirectoryMatch>)
    requires parts != []
    requires forall m :: m in down ==> FoundFrom(m, cwd, parts[|parts| - 1]) && BelowStart(m, cwd, parts)
    requires forall m :: m in up ==> FoundFrom(m, cwd, parts[|parts| - 1]) && FromAncestor(m, cwd, parts)
    ensures forall m :: m in down + up ==> PatternResult(m, cwd, parts)
  {
  }

  /** A result found below the start directory is placed as `FoundFrom` says, strictly below the start. */
  lemma FoundBelowStart(m: DirectoryMatch, cwd: Path, pieces: seq<string>)
    requires FoundBelow(m, cwd, pieces, 0, PATTERN_DEPTH)
    ensures FoundFrom(m, cwd, pieces[|pieces| - 1]) && BelowStart(m, cwd, pieces)
  {
  }
}
