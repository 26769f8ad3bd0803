/**
 * `search_down_tree_fast`: an exhaustive depth-first walk below a
 * directory, bounded by a maximum depth and by the time half of the search
 * budget only (the match ceiling is never consulted), that appends every
 * subdirectory whose name contains the term to the shared match list.
 *
 * The walk is specified by `DownFast`, which threads the budget through the
 * entries in `read_dir` order, and is compared with `Below`, the same walk
 * with no clock: when the clock never runs out the two agree.
 */
module DepthFirst {
  import opened Text
  import opened Matches
  import opened Tree
  import opened SearchBudget

  /** What a walk appends to the shared match list, and the budget after it. */
  datatype Outcome = Outcome(found: seq<DirectoryMatch>, budget: Budget)

  /** An empty term matches every name; otherwise the lowercased name must contain the lowercased term. */
  predicate FastHit(name: string, token: string) {
    token == [] || Contains(Lower(name), Lower(token))
  }

  /** An empty term or equal lowercased names make an exact match. */
  function FastQuality(name: string, token: string): MatchQuality {
    if token == [] || Lower(name) == Lower(token) then ExactDown else PartialDown
  }

  /** The match for the subdirectory `e` of the directory at `path`, reached at `depth`. */
  function FastMatch(path: Path, e: Dir, token: string, depth: nat): DirectoryMatch {
    DirectoryMatch(path + [e.name], depth, FastQuality(e.name, token))
  }

  /** The walk from the directory `d` at `path`, reached at `depth`. */
  function DownFast(d: Dir, path: Path, token: string, depth: nat, maxDepth: nat, b: Budget, clock: Clock): Outcome
    decreases SizeOf(d), 0
  {
    if depth > maxDepth then Outcome([], b)
    else
      var (up, b1) := TimeUpAt(b, clock);
      if up then Outcome([], b1)
      else DownFastEntries(Entries(d), path, token, depth, maxDepth, b1, clock)
  }

  /** The loop over the entries `es` of the directory at `path`. */
  function DownFastEntries(es: seq<Dir>, path: Path, token: string, depth: nat, maxDepth: nat, b: Budget, clock: Clock): Outcome
    decreases SizesOf(es), 2
  {
    if es == [] then Outcome([], b)
    else
      var e := es[0];
      var here := if FastHit(e.name, token) then [FastMatch(path, e, token, depth)] else [];
      var b1 := if FastHit(e.name, token) then AddMatchTo(b) else b;
      var below := DescendFast(e, path, token, depth, maxDepth, b1, clock);
      var rest := DownFastEntries(es[1..], path, token, depth, maxDepth, below.budget, clock);
      Outcome(here + below.found + rest.found, rest.budget)
  }

  /** The recursion into the entry `e`, taken only below the depth limit and while time is left. */
  function DescendFast(e: Dir, path: Path, token: string, depth: nat, maxDepth: nat, b: Budget, clock: Clock): Outcome
    decreases SizeOf(e), 1
  {
    if depth < maxDepth then
      var (up, b1) := TimeUpAt(b, clock);
      if up then Outcome([], b1) else DownFast(e, path + [e.name], token, depth + 1, maxDepth, b1, clock)
    else Outcome([], b)
  }

  /** The walk without a clock: every subdirectory within the depth limit, in pre-order. */
  function Below(d: Dir, path: Path, token: string, depth: nat, maxDepth: nat): seq<DirectoryMatch>
    decreases SizeOf(d), 0
  {
    if depth > maxDepth then [] else BelowEntries(Entries(d), path, token, depth, maxDepth)
  }

  function BelowEntries(es: seq<Dir>, path: Path, token: string, depth: nat, maxDepth: nat): seq<DirectoryMatch>
    decreases SizesOf(es), 2
  {
    if es == [] then []
    else
      var e := es[0];
      (if FastHit(e.name, token) then [FastMatch(path, e, token, depth)] else [])
      + (if depth < maxDepth then Below(e, path + [e.name], token, depth + 1, maxDepth) else [])
      + BelowEntries(es[1..], path, token, depth, maxDepth)
  }

  // ----- the walk as the source writes it -----

  /**
   * `search_down_tree_fast`: appends to `matches` what `DownFast` finds and
   * leaves the context with the budget `DownFast` ends with.
   */
  method SearchDownTreeFast(d: Dir, path: Path, token: string, matches: seq<DirectoryMatch>,
                            ctx: SearchContext, depth: nat, maxDepth: nat)
    returns (matches': seq<DirectoryMatch>)
    modifies ctx
    ensures matches' == matches + DownFast(d, path, token, depth, maxDepth, old(ctx.State()), ctx.clock).found
    ensures ctx.State() == DownFast(d, path, token, depth, maxDepth, old(ctx.State()), ctx.clock).budget
    decreases SizeOf(d), 0
  {
    matches' := matches;
    if depth > maxDepth {
      return;
    }
    var up := ctx.TimeUp();
    if up {
      return;
    }
    var es := Entries(d);
    ghost var b1 := ctx.State();
    ghost var total := DownFastEntries(es, path, token, depth, maxDepth, b1, ctx.clock);
    var i := 0;
    while i < |es|
      invariant 0 <= i <= |es|
      invariant var r := DownFastEntries(es[i..], path, token, depth, maxDepth, ctx.State(), ctx.clock);
        matches' + r.found == matches + total.found && r.budget == total.budget
    {
      var e := es[i];
      ghost var before, seen := ctx.State(), matches';
      EntriesStep(es, i, path, token, depth, maxDepth, before, ctx.clock);
      EntrySmaller(d, i);
      if FastHit(e.name, token) {
        matches' := matches' + [FastMatch(path, e, token, depth)];
        ctx.AddMatch();
      }
      ghost var hit := ctx.State();
      matches' := SearchBelow(e, path, token, matches', ctx, depth, maxDepth);
      ghost var below := DescendFast(e, path, token, depth, maxDepth, hit, ctx.clock);
      assert matches' == seen + (if FastHit(e.name, token) then [FastMatch(path, e, token, depth)] else []) + below.found;
      assert ctx.State() == below.budget;
      ghost var rest := DownFastEntries(es[i + 1..], path, token, depth, maxDepth, below.budget, ctx.clock);
      ghost var here := if FastHit(e.name, token) then [FastMatch(path, e, token, depth)] else [];
      assert DownFastEntries(es[i..], path, token, depth, maxDepth, before, ctx.clock) == Outcome(here + below.found + rest.found, rest.budget);
      Regroup(seen, here, below.found, rest.found);
      i := i + 1;
    }
  }

  /** The descent from the loop body into the entry `e`, while within the depth limit and the clock. Proved against `DescendFast`. */
  method SearchBelow(e: Dir, path: Path, token: string, matches: seq<DirectoryMatch>,
                     ctx: SearchContext, depth: nat, maxDepth: nat)
    returns (matches': seq<DirectoryMatch>)
    modifies ctx
    ensures matches' == matches + DescendFast(e, path, token, depth, maxDepth, old(ctx.State()), ctx.clock).found
    ensures ctx.State() == DescendFast(e, path, token, depth, maxDepth, old(ctx.State()), ctx.clock).budget
    decreases SizeOf(e), 1
  {
    matches' := matches;
    if depth < maxDepth {
      var late := ctx.TimeUp();
      if !late {
        matches' := SearchDownTreeFast(e, path + [e.name], token, matches', ctx, depth + 1, maxDepth);
        return;
      }
    }
    assert matches' == matches + [];
  }

  lemma Assoc<T>(a: seq<T>, b: seq<T>, c: seq<T>)
    ensures a + b + c == a + (b + c)
  {
  }

  lemma Regroup<T>(a: seq<T>, b: seq<T>, c: seq<T>, d: seq<T>)
    ensures a + b + c + d == a + (b + c + d)
  {
  }

  /** One round of the entry loop: the entry's own match, what is found below it, then the rest. */
  lemma EntriesStep(es: seq<Dir>, i: nat, path: Path, token: string, depth: nat, maxDepth: nat, b: Budget, clock: Clock)
    requires i < |es|
    ensures var e := es[i];
      var b1 := if FastHit(e.name, token) then AddMatchTo(b) else b;
      var below := DescendFast(e, path, token, depth, maxDepth, b1, clock);
      var rest := DownFastEntries(es[i + 1..], path, token, depth, maxDepth, below.budget, clock);
      DownFastEntries(es[i..], path, token, depth, maxDepth, b, clock)
        == Outcome((if FastHit(e.name, token) then [FastMatch(path, e, token, depth)] else []) + below.found + rest.found, rest.budget)
  {
    assert es[i..][1..] == es[i + 1..];
    assert es[i..][0] == es[i];
  }

  /** Each entry is a smaller tree than its directory. */
  lemma EntrySmaller(d: Dir, i: nat)
    requires i < |Entries(d)|
    ensures SizeOf(Entries(d)[i]) < SizeOf(d)
  {
    ElementSize(d.children, i);
  }

  lemma {:induction false} ElementSize(es: seq<Dir>, i: nat)
    requires i < |es|
    ensures SizeOf(es[i]) <= SizesOf(es)
    decreases i
  {
    if i > 0 {
      ElementSize(es[1..], i - 1);
    }
  }

  // ----- what the walk promises -----

  /** The walk counts one match per match it appends, and only reads the clock. */
  lemma {:induction false} DownFastCounts(d: Dir, path: Path, token: string, depth: nat, maxDepth: nat, b: Budget, clock: Clock)
    ensures var r := DownFast(d, path, token, depth, maxDepth, b, clock);
      r.budget.matches == b.matches + |r.found| && b.clockReads <= r.budget.clockReads
    decreases SizeOf(d), 0
  {
    if depth <= maxDepth && !Expired(clock, b.clockReads) {
      DownFastEntriesCounts(Entries(d), path, token, depth, maxDepth, TimeUpAt(b, clock).1, clock);
    }
  }

  lemma {:induction false} DownFastEntriesCounts(es: seq<Dir>, path: Path, token: string, depth: nat, maxDepth: nat, b: Budget, clock: Clock)
    ensures var r := DownFastEntries(es, path, token, depth, maxDepth, b, clock);
      r.budget.matches == b.matches + |r.found| && b.clockReads <= r.budget.clockReads
    decreases SizesOf(es), 2
  {
    if es != [] {
      var e := es[0];
      var b1 := if FastHit(e.name, token) then AddMatchTo(b) else b;
      DescendFastCounts(e, path, token, depth, maxDepth, b1, clock);
      var below := DescendFast(e, path, token, depth, maxDepth, b1, clock);
      DownFastEntriesCounts(es[1..], path, token, depth, maxDepth, below.budget, clock);
    }
  }

  lemma {:induction false} DescendFastCounts(e: Dir, path: Path, token: string, depth: nat, maxDepth: nat, b: Budget, clock: Clock)
    ensures var r := DescendFast(e, path, token, depth, maxDepth, b, clock);
      r.budget.matches == b.matches + |r.found| && b.clockReads <= r.budget.clockReads
    decreases SizeOf(e), 1
  {
    if depth < maxDepth && !Expired(clock, b.clockReads) {
      DownFastCounts(e, path + [e.name], token, depth + 1, maxDepth, TimeUpAt(b, clock).1, clock);
    }
  }

  /**
   * Where a match lies: `n` levels below `path` (`n = depthFromCurrent -
   * depth`, within the depth limit), named by the term, with the tier the
   * term gives its name.
   */
  predicate Placed(m: DirectoryMatch, path: Path, token: string, depth: nat, maxDepth: nat) {
    && depth <= m.depthFromCurrent <= maxDepth
    && |m.path| == |path| + (m.depthFromCurrent - depth) + 1
    && m.path[..|path|] == path
    && FastHit(m.path[|m.path| - 1], token)
    && m.matchQuality == FastQuality(m.path[|m.path| - 1], token)
  }

  lemma PlacedDeeper(m: DirectoryMatch, path: Path, name: string, token: string, depth: nat, maxDepth: nat)
    requires Placed(m, path + [name], token, depth + 1, maxDepth)
    ensures Placed(m, path, token, depth, maxDepth)
  {
    assert m.path[..|path|] == m.path[..|path| + 1][..|path|];
  }

  /** Whatever the clock does, every match the walk appends is placed within its bounds. */
  lemma {:induction false} DownFastPlaced(d: Dir, path: Path, token: string, depth: nat, maxDepth: nat, b: Budget, clock: Clock)
    ensures forall m :: m in DownFast(d, path, token, depth, maxDepth, b, clock).found ==>
      Placed(m, path, token, depth, maxDepth)
    decreases SizeOf(d), 0
  {
    if depth <= maxDepth && !Expired(clock, b.clockReads) {
      DownFastEntriesPlaced(Entries(d), path, token, depth, maxDepth, TimeUpAt(b, clock).1, clock);
    }
  }

  lemma {:induction false} DownFastEntriesPlaced(es: seq<Dir>, path: Path, token: string, depth: nat, maxDepth: nat, b: Budget, clock: Clock)
    requires depth <= maxDepth
    ensures forall m :: m in DownFastEntries(es, path, token, depth, maxDepth, b, clock).found ==>
      Placed(m, path, token, depth, maxDepth)
    decreases SizesOf(es), 2
  {
    if es != [] {
      var e := es[0];
      var b1 := if FastHit(e.name, token) then AddMatchTo(b) else b;
      DescendFastPlaced(e, path, token, depth, maxDepth, b1, clock);
      var below := DescendFast(e, path, token, depth, maxDepth, b1, clock);
      DownFastEntriesPlaced(es[1..], path, token, depth, maxDepth, below.budget, clock);
      assert (path + [e.name])[..|path|] == path;
    }
  }

  lemma {:induction false} DescendFastPlaced(e: Dir, path: Path, token: string, depth: nat, maxDepth: nat, b: Budget, clock: Clock)
    ensures forall m :: m in DescendFast(e, path, token, depth, maxDepth, b, clock).found ==>
      Placed(m, path, token, depth, maxDepth)
    decreases SizeOf(e), 1
  {
    if depth < maxDepth && !Expired(clock, b.clockReads) {
      DownFastPlaced(e, path + [e.name], token, depth + 1, maxDepth, TimeUpAt(b, clock).1, clock);
      forall m | m in DescendFast(e, path, token, depth, maxDepth, b, clock).found
        ensures Placed(m, path, token, depth, maxDepth)
      {
        PlacedDeeper(m, path, e.name, token, depth, maxDepth);
      }
    }
  }

  /**
   * With time to spare, the walk finds every subdirectory within the depth
   * limit whose name contains the term, in pre-order, however many there
   * are: the match ceiling does not cut it short.
   */
  lemma {:induction false} DownFastComplete(d: Dir, path: Path, token: string, depth: nat, maxDepth: nat, b: Budget)
    ensures DownFast(d, path, token, depth, maxDepth, b, Never).found == Below(d, path, token, depth, maxDepth)
    decreases SizeOf(d), 0
  {
    if depth <= maxDepth {
      DownFastEntriesComplete(Entries(d), path, token, depth, maxDepth, TimeUpAt(b, Never).1);
    }
  }

  lemma {:induction false} DownFastEntriesComplete(es: seq<Dir>, path: Path, token: string, depth: nat, maxDepth: nat, b: Budget)
    ensures DownFastEntries(es, path, token, depth, maxDepth, b, Never).found == BelowEntries(es, path, token, depth, maxDepth)
    decreases SizesOf(es), 2
  {
    if es != [] {
      var e := es[0];
      var b1 := if FastHit(e.name, token) then AddMatchTo(b) else b;
      if depth < maxDepth {
        DownFastComplete(e, path + [e.name], token, depth + 1, maxDepth, TimeUpAt(b1, Never).1);
      }
      var below := DescendFast(e, path, token, depth, maxDepth, b1, Never);
      DownFastEntriesComplete(es[1..], path, token, depth, maxDepth, below.budget);
    }
  }

  /**
   * Completeness in terms of the tree: a subdirectory `n` levels below `d`
   * (reached by the descent `ds`, `n = |ds|`), within the depth limit and
   * named by the term, is found below `path`, labelled with the depth of the
   * directory whose listing holds it.
   */
  lemma {:induction false} BelowFinds(d: Dir, path: Path, token: string, depth: nat, maxDepth: nat, ds: seq<Dir>)
    requires Descent(d, ds) && 1 <= |ds| && depth + |ds| - 1 <= maxDepth
    requires FastHit(ds[|ds| - 1].name, token)
    ensures FastMatch(path + Names(ds[..|ds| - 1]), ds[|ds| - 1], token, depth + |ds| - 1)
      in Below(d, path, token, depth, maxDepth)
    decreases |ds|
  {
    var e := ds[0];
    BelowEntriesHolds(Entries(d), path, token, depth, maxDepth, e);
    if |ds| == 1 {
      assert path + Names(ds[..0]) == path;
    } else {
      var tail := ds[1..];
      assert Descent(e, tail);
      BelowFinds(e, path + [e.name], token, depth + 1, maxDepth, tail);
      assert tail[|tail| - 1] == ds[|ds| - 1];
      NamesAbove(path, ds);
    }
  }

  lemma NamesAbove(path: Path, ds: seq<Dir>)
    requires 2 <= |ds|
    ensures path + [ds[0].name] + Names(ds[1..][..|ds| - 2]) == path + Names(ds[..|ds| - 1])
  {
    assert ds[1..][..|ds| - 2] == ds[..|ds| - 1][1..];
  }

  /** The loop over `es` collects, for each entry, its own match and everything below it. */
  lemma {:induction false} BelowEntriesHolds(es: seq<Dir>, path: Path, token: string, depth: nat, maxDepth: nat, e: Dir)
    requires e in es
    ensures FastHit(e.name, token) ==> FastMatch(path, e, token, depth) in BelowEntries(es, path, token, depth, maxDepth)
    ensures depth < maxDepth ==> forall m :: m in Below(e, path + [e.name], token, depth + 1, maxDepth) ==>
      m in BelowEntries(es, path, token, depth, maxDepth)
    decreases |es|
  {
    if es[0] != e {
      BelowEntriesHolds(es[1..], path, token, depth, maxDepth, e);
    }
  }

  /** With time to spare, the walk finds every such subdirectory. */
  lemma DownFastFinds(d: Dir, path: Path, token: string, depth: nat, maxDepth: nat, b: Budget, ds: seq<Dir>)
    requires Descent(d, ds) && 1 <= |ds| && depth + |ds| - 1 <= maxDepth
    requires FastHit(ds[|ds| - 1].name, token)
    ensures FastMatch(path + Names(ds[..|ds| - 1]), ds[|ds| - 1], token, depth + |ds| - 1)
      in DownFast(d, path, token, depth, maxDepth, b, Never).found
  {
    DownFastComplete(d, path, token, depth, maxDepth, b);
    BelowFinds(d, path, token, depth, maxDepth, ds);
  }

  /** Soundness in terms of the tree: whatever the clock does, every match names a directory below `d`. */
  lemma {:induction false} DownFastInTree(d: Dir, path: Path, token: string, depth: nat, maxDepth: nat, b: Budget, clock: Clock)
    ensures forall m :: m in DownFast(d, path, token, depth, maxDepth, b, clock).found ==>
      |path| <= |m.path| && Reachable(d, m.path[|path|..])
    decreases SizeOf(d), 0
  {
    if depth <= maxDepth && !Expired(clock, b.clockReads) {
      DownFastEntriesInTree(Entries(d), d, path, token, depth, maxDepth, TimeUpAt(b, clock).1, clock);
    }
  }

  lemma {:induction false} DownFastEntriesInTree(es: seq<Dir>, d: Dir, path: Path, token: string, depth: nat, maxDepth: nat, b: Budget, clock: Clock)
    requires forall e :: e in es ==> e in Entries(d)
    ensures forall m :: m in DownFastEntries(es, path, token, depth, maxDepth, b, clock).found ==>
      |path| <= |m.path| && Reachable(d, m.path[|path|..])
    decreases SizesOf(es), 2
  {
    if es != [] {
      var e := es[0];
      var b1 := if FastHit(e.name, token) then AddMatchTo(b) else b;
      DescendFastInTree(e, path, token, depth, maxDepth, b1, clock);
      var below := DescendFast(e, path, token, depth, maxDepth, b1, clock);
      DownFastEntriesInTree(es[1..], d, path, token, depth, maxDepth, below.budget, clock);
      if FastHit(e.name, token) {
        var m := FastMatch(path, e, token, depth);
        assert Descent(e, []) && Names([]) == [];
        ReachableThrough(d, e, []);
        assert m.path[|path|..] == [e.name] + [];
      }
      forall m | m in below.found ensures |path| <= |m.path| && Reachable(d, m.path[|path|..]) {
        ReachableThrough(d, e, m.path[|path| + 1..]);
        assert m.path[|path|..] == [e.name] + m.path[|path| + 1..];
      }
    }
  }

  lemma {:induction false} DescendFastInTree(e: Dir, path: Path, token: string, depth: nat, maxDepth: nat, b: Budget, clock: Clock)
    ensures forall m :: m in DescendFast(e, path, token, depth, maxDepth, b, clock).found ==>
      && |path| < |m.path| && m.path[|path|] == e.name
      && Reachable(e, m.path[|path| + 1..])
    decreases SizeOf(e), 1
  {
    if depth < maxDepth && !Expired(clock, b.clockReads) {
      var inner := path + [e.name];
      var b1 := TimeUpAt(b, clock).1;
      DownFastInTree(e, inner, token, depth + 1, maxDepth, b1, clock);
      DownFastPlaced(e, inner, token, depth + 1, maxDepth, b1, clock);
      forall m | m in DownFast(e, inner, token, depth + 1, maxDepth, b1, clock).found
        ensures |path| < |m.path| && m.path[|path|] == e.name
      {
        assert m.path[..|inner|] == inner;
        assert m.path[|path|] == m.path[..|inner|][|path|];
      }
    }
  }

  /** An empty term makes every subdirectory an exact match. */
  lemma EmptyTermIsExact(d: Dir, path: Path, depth: nat, maxDepth: nat, b: Budget, clock: Clock)
    ensures forall m :: m in DownFast(d, path, [], depth, maxDepth, b, clock).found ==> m.matchQuality == ExactDown
  {
    DownFastPlaced(d, path, [], depth, maxDepth, b, clock);
  }

  /** With an empty term and time to spare, every subdirectory directly below the start is found, in `read_dir` order. */
  lemma EmptyTermFindsChildren(d: Dir, path: Path, depth: nat, maxDepth: nat, b: Budget, e: Dir)
    requires depth <= maxDepth
    requires e in Entries(d)
    ensures FastMatch(path, e, [], depth) in DownFast(d, path, [], depth, maxDepth, b, Never).found
  {
    DownFastComplete(d, path, [], depth, maxDepth, b);
    BelowEntriesHasChild(Entries(d), path, depth, maxDepth, e);
  }

  lemma {:induction false} BelowEntriesHasChild(es: seq<Dir>, path: Path, depth: nat, maxDepth: nat, e: Dir)
    requires e in es
    ensures FastMatch(path, e, [], depth) in BelowEntries(es, path, [], depth, maxDepth)
    decreases |es|
  {
    if es[0] != e {
      BelowEntriesHasChild(es[1..], path, depth, maxDepth, e);
    }
  }
}
