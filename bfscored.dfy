/**
 * `search_breadth_first`: the breadth-first walk that serves an absolute
 * token naming no directory. Directories are taken from a FIFO queue; each
 * one's subdirectories are scanned in `read_dir` order, those whose name
 * contains the term are scored (0 exact, 1 prefix, 2 any other substring),
 * the level's matches are appended best score first, and the
 * subdirectories within the depth limit are queued for the next level.
 * Every step asks `should_continue`, so the walk stops adding once the
 * match ceiling or the time ceiling is reached.
 *
 * The three loops of one directory are specified by `ScanEntries`, `Emit`
 * and `Enqueue`, and one dequeued directory as a whole by `VisitScored`;
 * the method follows the source loop by loop and is proved to keep the
 * match list a sequence of per-directory blocks, each ordered by score.
 */
module ScoredBreadthFirst {
  import opened Text
  import opened Sorting
  import opened Matches
  import opened Tree
  import opened SearchBudget
  import opened DepthFirst

  /** A queue item: a directory, its path and its depth below the walk's root. */
  datatype Queued = Queued(dir: Dir, path: Path, depth: nat)

  /** A level match with the score it is sorted by. */
  datatype Scored = Scored(score: nat, m: DirectoryMatch)

  /** `is_match`: empty term, equal, prefix or substring, all after lowercasing. */
  predicate ScoredHit(name: string, token: string) {
    var n, t := Lower(name), Lower(token);
    token == [] || n == t || IsPrefix(t, n) || Contains(n, t)
  }

  /** `quality_score`: 0 for equal lowercased names, 1 for a prefix, 2 otherwise. */
  function Score(name: string, token: string): nat {
    var n, t := Lower(name), Lower(token);
    if n == t then 0 else if IsPrefix(t, n) then 1 else 2
  }

  /** Only a score of 0 is an exact match. */
  function ScoredQuality(score: nat): MatchQuality {
    if score == 0 then ExactDown else PartialDown
  }

  /** `sort_by_key` on the score. */
  predicate ByScore(a: Scored, b: Scored) {
    a.score <= b.score
  }

  /** The scored match for the entry `e` of the queued directory `v`, if its name matches. */
  function EntryHit(v: Queued, e: Dir, token: string): seq<Scored> {
    if ScoredHit(e.name, token) then
      var s := Score(e.name, token);
      [Scored(s, DirectoryMatch(v.path + [e.name], v.depth, ScoredQuality(s)))]
    else []
  }

  /** The entry `e` of `v` as a queue item, if `v` is above the depth limit. */
  function EntrySubdir(v: Queued, e: Dir, maxDepth: nat): seq<Queued> {
    if v.depth < maxDepth then [Queued(e, v.path + [e.name], v.depth + 1)] else []
  }

  /** What the scan of one directory's entries collects, and the budget after it. */
  datatype Scan = Scan(hits: seq<Scored>, subdirs: seq<Queued>, budget: Budget)

  /** The entry loop: `should_continue` before each entry, stopping at the first refusal. */
  function ScanEntries(es: seq<Dir>, v: Queued, token: string, maxDepth: nat, b: Budget, clock: Clock): Scan
    decreases |es|
  {
    if es == [] then Scan([], [], b)
    else
      var (go, b1) := ShouldContinueAt(b, clock);
      if !go then Scan([], [], b1)
      else
        var rest := ScanEntries(es[1..], v, token, maxDepth, b1, clock);
        Scan(EntryHit(v, es[0], token) + rest.hits, EntrySubdir(v, es[0], maxDepth) + rest.subdirs, rest.budget)
  }

  /** The level loop: `should_continue` before each match, stopping at the first refusal. */
  function Emit(hits: seq<Scored>, b: Budget, clock: Clock): Outcome
    decreases |hits|
  {
    if hits == [] then Outcome([], b)
    else
      var (go, b1) := ShouldContinueAt(b, clock);
      if !go then Outcome([], b1)
      else
        var rest := Emit(hits[1..], AddMatchTo(b1), clock);
        Outcome([hits[0].m] + rest.found, rest.budget)
  }

  /** The queueing loop: `should_continue` before each subdirectory, skipping (not stopping) on a refusal. */
  function Enqueue(subdirs: seq<Queued>, b: Budget, clock: Clock): (seq<Queued>, Budget)
    decreases |subdirs|
  {
    if subdirs == [] then ([], b)
    else
      var (go, b1) := ShouldContinueAt(b, clock);
      var (rest, b2) := Enqueue(subdirs[1..], b1, clock);
      ((if go then [subdirs[0]] else []) + rest, b2)
  }

  /** What one dequeued directory adds to the matches and to the queue. */
  datatype Step = Step(found: seq<DirectoryMatch>, queued: seq<Queued>, budget: Budget)

  /** One round of the queue loop for the dequeued item `v`. */
  function VisitScored(v: Queued, token: string, maxDepth: nat, b: Budget, clock: Clock): Step {
    if v.depth > maxDepth then Step([], [], b)
    else
      var (go, b1) := ShouldContinueAt(b, clock);
      if !go then Step([], [], b1)
      else
        var scan := ScanEntries(Entries(v.dir), v, token, maxDepth, b1, clock);
        var emitted := Emit(SortBy(scan.hits, ByScore), scan.budget, clock);
        var (queued, b2) := Enqueue(scan.subdirs, emitted.budget, clock);
        Step(emitted.found, queued, b2)
  }

  // ----- the walk as the source writes it -----

  /** The last segment of a match's path: the matched directory's name. */
  function LastName(m: DirectoryMatch): string {
    if m.path == [] then [] else m.path[|m.path| - 1]
  }

  /** The path of the directory in which a match was found. */
  function Parent(m: DirectoryMatch): Path {
    if m.path == [] then [] else m.path[..|m.path| - 1]
  }

  /** A match of the walk from `root`: within the depth limit, below `root`, and scored by its name. */
  predicate ScoredPlaced(m: DirectoryMatch, root: Path, token: string, maxDepth: nat) {
    && 0 <= m.depthFromCurrent <= maxDepth
    && |m.path| == |root| + m.depthFromCurrent + 1
    && m.path[..|root|] == root
    && ScoredHit(LastName(m), token)
    && m.matchQuality == ScoredQuality(Score(LastName(m), token))
  }

  /**
   * The matches one directory contributes: all found in the same directory
   * at the same depth, exact matches before prefix matches before other
   * substring matches.
   */
  predicate LevelBlock(blk: seq<DirectoryMatch>, root: Path, token: string, maxDepth: nat) {
    && (forall m :: m in blk ==> ScoredPlaced(m, root, token, maxDepth))
    && (forall i, j :: 0 <= i < j < |blk| ==>
          Score(LastName(blk[i]), token) <= Score(LastName(blk[j]), token)
          && Parent(blk[i]) == Parent(blk[j])
          && blk[i].depthFromCurrent == blk[j].depthFromCurrent)
  }

  /** The blocks laid end to end. */
  function Concat(blocks: seq<seq<DirectoryMatch>>): seq<DirectoryMatch>
    decreases |blocks|
  {
    if blocks == [] then [] else blocks[0] + Concat(blocks[1..])
  }

  /** `appended` is the blocks laid end to end, each the block of one directory. */
  predicate Blocks(appended: seq<DirectoryMatch>, blocks: seq<seq<DirectoryMatch>>, root: Path, token: string, maxDepth: nat) {
    appended == Concat(blocks) && forall k :: 0 <= k < |blocks| ==> LevelBlock(blocks[k], root, token, maxDepth)
  }

  /** The total size of the directories in a queue. */
  function QueueSize(q: seq<Queued>): nat
    decreases |q|
  {
    if q == [] then 0 else SizeOf(q[0].dir) + QueueSize(q[1..])
  }

  /** A queue item at `n` levels below `root`. */
  predicate UnderRoot(root: Path, q: Queued) {
    |q.path| == |root| + q.depth && q.path[..|root|] == root
  }

  /**
   * The queue loop from the queue `queue`: dequeue, visit, queue what the
   * visit queues, until the queue is empty.
   */
  function ScoredWalk(queue: seq<Queued>, token: string, maxDepth: nat, b: Budget, clock: Clock): Outcome
    decreases QueueSize(queue)
  {
    if queue == [] then Outcome([], b)
    else
      var step := VisitScored(queue[0], token, maxDepth, b, clock);
      VisitScoredQueued(queue[0], token, maxDepth, b, clock);
      QueueSizeAppend(queue[1..], step.queued);
      var rest := ScoredWalk(queue[1..] + step.queued, token, maxDepth, step.budget, clock);
      Outcome(step.found + rest.found, rest.budget)
  }

  /** The walk of `search_breadth_first`: a queue holding only the root, at depth 0. */
  function BreadthFirst(root: Dir, rootPath: Path, token: string, maxDepth: nat, b: Budget, clock: Clock): Outcome {
    ScoredWalk([Queued(root, rootPath, 0)], token, maxDepth, b, clock)
  }

  /** `search_breadth_first`: appends what `BreadthFirst` finds and leaves the context at its budget. */
  method SearchBreadthFirst(root: Dir, rootPath: Path, token: string, matches: seq<DirectoryMatch>,
                            ctx: SearchContext, maxDepth: nat)
    returns (matches': seq<DirectoryMatch>)
    requires ctx.Valid()
    modifies ctx
    ensures ctx.Valid()
    ensures matches' == matches + BreadthFirst(root, rootPath, token, maxDepth, old(ctx.State()), ctx.clock).found
    ensures ctx.State() == BreadthFirst(root, rootPath, token, maxDepth, old(ctx.State()), ctx.clock).budget
  {
    var queue := [Queued(root, rootPath, 0)];
    matches' := matches;
    ghost var total := ScoredWalk(queue, token, maxDepth, ctx.State(), ctx.clock);
    while queue != []
      invariant ctx.Valid()
      invariant var r := ScoredWalk(queue, token, maxDepth, ctx.State(), ctx.clock);
        matches' + r.found == matches + total.found && r.budget == total.budget
      decreases QueueSize(queue)
    {
      ghost var seen, start, before := matches', ctx.State(), queue;
      var v := queue[0];
      queue := queue[1..];
      ghost var step := VisitScored(v, token, maxDepth, start, ctx.clock);
      VisitScoredQueued(v, token, maxDepth, start, ctx.clock);
      QueueSizeAppend(queue, step.queued);
      ghost var rest := ScoredWalk(queue + step.queued, token, maxDepth, step.budget, ctx.clock);
      assert ScoredWalk(before, token, maxDepth, start, ctx.clock) == Outcome(step.found + rest.found, rest.budget);
      Assoc(seen, step.found, rest.found);
      if v.depth > maxDepth {
        assert step == Step([], [], start);
        assert queue + [] == queue && seen + [] == seen;
        assert matches' + rest.found == matches + total.found;
        continue;
      }
      var go := ctx.ShouldContinue();
      if !go {
        assert step == Step([], [], ctx.State());
        assert queue + [] == queue && seen + [] == seen;
        assert matches' + rest.found == matches + total.found;
        continue;
      }
      var hits, subdirs := ScanLevel(v, token, maxDepth, ctx);
      var levelMatches := SortBy(hits, ByScore);
      ghost var emitted := Emit(levelMatches, ctx.State(), ctx.clock);
      matches' := EmitLevel(levelMatches, matches', ctx);
      ghost var enqueued := Enqueue(subdirs, ctx.State(), ctx.clock);
      queue := EnqueueLevel(subdirs, queue, ctx);
      assert step == Step(emitted.found, enqueued.0, enqueued.1);
      assert matches' == seen + step.found;
      assert queue == before[1..] + step.queued;
      assert ctx.State() == step.budget;
      assert matches' + rest.found == matches + total.found;
    }
  }

  /** "Process all entries": the scan of `v`'s entries, as `ScanEntries` specifies it. */
  method ScanLevel(v: Queued, token: string, maxDepth: nat, ctx: SearchContext)
    returns (hits: seq<Scored>, subdirs: seq<Queued>)
    requires ctx.Valid()
    modifies ctx
    ensures ctx.Valid()
    ensures var s := ScanEntries(Entries(v.dir), v, token, maxDepth, old(ctx.State()), ctx.clock);
      hits == s.hits && subdirs == s.subdirs && ctx.State() == s.budget
  {
    var es := Entries(v.dir);
    ghost var total := ScanEntries(es, v, token, maxDepth, ctx.State(), ctx.clock);
    hits, subdirs := [], [];
    var i := 0;
    while i < |es|
      invariant 0 <= i <= |es|
      invariant ctx.Valid()
      invariant var r := ScanEntries(es[i..], v, token, maxDepth, ctx.State(), ctx.clock);
        hits + r.hits == total.hits && subdirs + r.subdirs == total.subdirs && r.budget == total.budget
    {
      ScanStep(es, i, v, token, maxDepth, ctx.State(), ctx.clock);
      var go := ctx.ShouldContinue();
      if !go {
        assert hits + [] == hits && subdirs + [] == subdirs;
        break;
      }
      var e := es[i];
      ghost var seenHits, seenSubdirs := hits, subdirs;
      hits, subdirs := ScanEntry(v, e, token, maxDepth, hits, subdirs);
      ghost var rest := ScanEntries(es[i + 1..], v, token, maxDepth, ctx.State(), ctx.clock);
      Assoc(seenHits, EntryHit(v, e, token), rest.hits);
      Assoc(seenSubdirs, EntrySubdir(v, e, maxDepth), rest.subdirs);
      i := i + 1;
    }
    assert es[|es|..] == [];
    assert hits + [] == hits && subdirs + [] == subdirs;
  }

  /**
   * The body of the entry loop for one entry `e`: records it, scored, when
   * its name matches, and queues it one level deeper below the depth limit.
   */
  method ScanEntry(v: Queued, e: Dir, token: string, maxDepth: nat, hits: seq<Scored>, subdirs: seq<Queued>)
    returns (hits': seq<Scored>, subdirs': seq<Queued>)
    ensures hits' == hits + EntryHit(v, e, token) && subdirs' == subdirs + EntrySubdir(v, e, maxDepth)
  {
    hits', subdirs' := hits, subdirs;
    var path := v.path + [e.name];
    var nameLower, searchLower := Lower(e.name), Lower(token);
    var isMatch := token == [] || nameLower == searchLower || IsPrefix(searchLower, nameLower)
                   || Contains(nameLower, searchLower);
    assert isMatch == ScoredHit(e.name, token);
    if isMatch {
      var score := if nameLower == searchLower then 0 else if IsPrefix(searchLower, nameLower) then 1 else 2;
      var quality := if score == 0 then ExactDown else PartialDown;
      assert score == Score(e.name, token) && quality == ScoredQuality(score);
      hits' := hits' + [Scored(score, DirectoryMatch(path, v.depth, quality))];
    } else {
      assert hits' == hits + [];
    }
    if v.depth < maxDepth {
      subdirs' := subdirs' + [Queued(e, path, v.depth + 1)];
    } else {
      assert subdirs' == subdirs + [];
    }
  }

  /** "Sort and add matches from this level": appends what `Emit` specifies. */
  method EmitLevel(levelMatches: seq<Scored>, matches: seq<DirectoryMatch>, ctx: SearchContext)
    returns (matches': seq<DirectoryMatch>)
    requires ctx.Valid()
    modifies ctx
    ensures ctx.Valid()
    ensures var o := Emit(levelMatches, old(ctx.State()), ctx.clock);
      matches' == matches + o.found && ctx.State() == o.budget
  {
    ghost var total := Emit(levelMatches, ctx.State(), ctx.clock);
    matches' := matches;
    var j := 0;
    while j < |levelMatches|
      invariant 0 <= j <= |levelMatches|
      invariant ctx.Valid()
      invariant var r := Emit(levelMatches[j..], ctx.State(), ctx.clock);
        matches' + r.found == matches + total.found && r.budget == total.budget
    {
      EmitStep(levelMatches, j, ctx.State(), ctx.clock);
      var go := ctx.ShouldContinue();
      if !go {
        assert matches' + [] == matches';
        break;
      }
      ghost var seen := matches';
      matches' := matches' + [levelMatches[j].m];
      ctx.AddMatch();
      ghost var rest := Emit(levelMatches[j + 1..], ctx.State(), ctx.clock);
      Assoc(seen, [levelMatches[j].m], rest.found);
      j := j + 1;
    }
    assert levelMatches[|levelMatches|..] == [];
    assert matches' + [] == matches';
  }

  /** "Add subdirectories to queue for next level": appends what `Enqueue` specifies. */
  method EnqueueLevel(subdirs: seq<Queued>, queue: seq<Queued>, ctx: SearchContext)
    returns (queue': seq<Queued>)
    requires ctx.Valid()
    modifies ctx
    ensures ctx.Valid()
    ensures var (q, b) := Enqueue(subdirs, old(ctx.State()), ctx.clock);
      queue' == queue + q && ctx.State() == b
  {
    ghost var total := Enqueue(subdirs, ctx.State(), ctx.clock);
    queue' := queue;
    var k := 0;
    while k < |subdirs|
      invariant 0 <= k <= |subdirs|
      invariant ctx.Valid()
      invariant var r := Enqueue(subdirs[k..], ctx.State(), ctx.clock);
        queue' + r.0 == queue + total.0 && r.1 == total.1
    {
      EnqueueStep(subdirs, k, ctx.State(), ctx.clock);
      ghost var seen := queue';
      var go := ctx.ShouldContinue();
      if go {
        queue' := queue' + [subdirs[k]];
      }
      ghost var rest := Enqueue(subdirs[k + 1..], ctx.State(), ctx.clock);
      Assoc(seen, if go then [subdirs[k]] else [], rest.0);
      k := k + 1;
    }
    assert subdirs[|subdirs|..] == [];
    assert queue' + [] == queue';
  }

  /** One round of the entry loop, unfolded. */
  lemma ScanStep(es: seq<Dir>, i: nat, v: Queued, token: string, maxDepth: nat, b: Budget, clock: Clock)
    requires i < |es|
    ensures var (go, b1) := ShouldContinueAt(b, clock);
      var rest := ScanEntries(es[i + 1..], v, token, maxDepth, b1, clock);
      ScanEntries(es[i..], v, token, maxDepth, b, clock)
        == if !go then Scan([], [], b1)
           else Scan(EntryHit(v, es[i], token) + rest.hits, EntrySubdir(v, es[i], maxDepth) + rest.subdirs, rest.budget)
  {
    assert es[i..][1..] == es[i + 1..];
    assert es[i..][0] == es[i];
  }

  /** One round of the level loop, unfolded. */
  lemma EmitStep(hits: seq<Scored>, j: nat, b: Budget, clock: Clock)
    requires j < |hits|
    ensures var (go, b1) := ShouldContinueAt(b, clock);
      var rest := Emit(hits[j + 1..], AddMatchTo(b1), clock);
      Emit(hits[j..], b, clock) == if !go then Outcome([], b1) else Outcome([hits[j].m] + rest.found, rest.budget)
  {
    assert hits[j..][1..] == hits[j + 1..];
    assert hits[j..][0] == hits[j];
  }

  /** One round of the queueing loop, unfolded. */
  lemma EnqueueStep(subdirs: seq<Queued>, k: nat, b: Budget, clock: Clock)
    requires k < |subdirs|
    ensures var (go, b1) := ShouldContinueAt(b, clock);
      var rest := Enqueue(subdirs[k + 1..], b1, clock);
      Enqueue(subdirs[k..], b, clock) == ((if go then [subdirs[k]] else []) + rest.0, rest.1)
  {
    assert subdirs[k..][1..] == subdirs[k + 1..];
    assert subdirs[k..][0] == subdirs[k];
  }

  lemma {:induction false} QueueSizeAppend(a: seq<Queued>, b: seq<Queued>)
    ensures QueueSize(a + b) == QueueSize(a) + QueueSize(b)
    decreases |a|
  {
    if a == [] {
      assert a + b == b;
    } else {
      assert (a + b)[1..] == a[1..] + b;
      QueueSizeAppend(a[1..], b);
    }
  }

  // ----- what one directory contributes -----

  /** `is_match` is the substring test: the empty, equal and prefix cases are all substrings. */
  lemma ScoredHitIsContains(name: string, token: string)
    ensures ScoredHit(name, token) <==> Contains(Lower(name), Lower(token))
  {
    var n, t := Lower(name), Lower(token);
    if token == [] {
      assert t == [];
      EmptyIsContained(n);
    } else if n == t {
      assert IsPrefix(t, n);
      PrefixIsContained(t, n);
    } else if IsPrefix(t, n) {
      PrefixIsContained(t, n);
    }
  }

  /** A level match found in the directory `v`: one of `v`'s listed subdirectories, at `v`'s depth, scored by its name. */
  predicate HitFrom(h: Scored, v: Queued, token: string) {
    && LastName(h.m) in Names(Entries(v.dir))
    && |h.m.path| == |v.path| + 1
    && h.m.path[..|v.path|] == v.path
    && h.m.depthFromCurrent == v.depth
    && ScoredHit(LastName(h.m), token)
    && h.score == Score(LastName(h.m), token)
    && h.m.matchQuality == ScoredQuality(h.score)
  }

  /** A queue item for a listed subdirectory of `v`, when `v` is above the depth limit. */
  predicate SubdirOf(q: Queued, v: Queued, maxDepth: nat) {
    && q.dir in Entries(v.dir)
    && v.depth < maxDepth && q.depth == v.depth + 1 && q.path == v.path + [q.dir.name]
  }

  /**
   * The scan counts nothing, records only matching names, scored by their
   * name, queues only subdirectories of `v` below the depth limit, and
   * queues no more than the entries hold.
   */
  lemma {:induction false} ScanFacts(es: seq<Dir>, v: Queued, token: string, maxDepth: nat, b: Budget, clock: Clock)
    requires forall e :: e in es ==> e in Entries(v.dir)
    ensures var r := ScanEntries(es, v, token, maxDepth, b, clock);
      && r.budget.matches == b.matches
      && (forall h :: h in r.hits ==> HitFrom(h, v, token))
      && (forall q :: q in r.subdirs ==> SubdirOf(q, v, maxDepth))
      && QueueSize(r.subdirs) <= SizesOf(es)
    decreases |es|
  {
    if es != [] {
      var (go, b1) := ShouldContinueAt(b, clock);
      if go {
        ScanFacts(es[1..], v, token, maxDepth, b1, clock);
        var rest := ScanEntries(es[1..], v, token, maxDepth, b1, clock);
        var e := es[0];
        if ScoredHit(e.name, token) {
          var m := DirectoryMatch(v.path + [e.name], v.depth, ScoredQuality(Score(e.name, token)));
          assert LastName(m) == e.name;
          assert m.path[..|v.path|] == v.path;
          NameListed(Entries(v.dir), e);
        }
        QueueSizeAppend(EntrySubdir(v, e, maxDepth), rest.subdirs);
      }
    }
  }

  /** With a clock that never runs out and room under the ceiling, the scan sees every entry. */
  lemma {:induction false} ScanComplete(es: seq<Dir>, v: Queued, token: string, maxDepth: nat, b: Budget)
    requires b.matches < MAX_MATCHES
    ensures var r := ScanEntries(es, v, token, maxDepth, b, Never);
      r.hits == AllHits(es, v, token) && r.subdirs == AllSubdirs(es, v, maxDepth)
    decreases |es|
  {
    if es != [] {
      ScanComplete(es[1..], v, token, maxDepth, ShouldContinueAt(b, Never).1);
    }
  }

  /** Every matching entry of `v`, scored, in `read_dir` order (the scan with no budget). */
  function AllHits(es: seq<Dir>, v: Queued, token: string): seq<Scored>
    decreases |es|
  {
    if es == [] then [] else EntryHit(v, es[0], token) + AllHits(es[1..], v, token)
  }

  /** Every entry of `v` as a queue item when `v` is above the depth limit. */
  function AllSubdirs(es: seq<Dir>, v: Queued, maxDepth: nat): seq<Queued>
    decreases |es|
  {
    if es == [] then [] else EntrySubdir(v, es[0], maxDepth) + AllSubdirs(es[1..], v, maxDepth)
  }

  /**
   * The level loop appends a prefix of the sorted matches, counting each,
   * and never takes the counter past the ceiling.
   */
  lemma {:induction false} EmitFacts(hits: seq<Scored>, b: Budget, clock: Clock)
    ensures var r := Emit(hits, b, clock);
      && r.budget.matches == b.matches + |r.found|
      && (b.matches <= MAX_MATCHES ==> r.budget.matches <= MAX_MATCHES)
      && |r.found| <= |hits|
      && (forall i :: 0 <= i < |r.found| ==> r.found[i] == hits[i].m)
    decreases |hits|
  {
    if hits != [] {
      var (go, b1) := ShouldContinueAt(b, clock);
      if go {
        EmitFacts(hits[1..], AddMatchTo(b1), clock);
      }
    }
  }

  /** With a clock that never runs out, the level loop stops exactly at the ceiling. */
  lemma {:induction false} EmitComplete(hits: seq<Scored>, b: Budget)
    requires b.matches <= MAX_MATCHES
    ensures var r := Emit(hits, b, Never);
      |r.found| == if |hits| <= MAX_MATCHES - b.matches then |hits| else MAX_MATCHES - b.matches
    decreases |hits|
  {
    if hits != [] && b.matches < MAX_MATCHES {
      EmitComplete(hits[1..], AddMatchTo(ShouldContinueAt(b, Never).1));
    }
  }

  /** The queueing loop counts nothing and queues a subsequence of the subdirectories. */
  lemma {:induction false} EnqueueFacts(subdirs: seq<Queued>, b: Budget, clock: Clock)
    ensures var (q, b') := Enqueue(subdirs, b, clock);
      && b'.matches == b.matches
      && (forall x :: x in q ==> x in subdirs)
      && QueueSize(q) <= QueueSize(subdirs)
    decreases |subdirs|
  {
    if subdirs != [] {
      var (go, b1) := ShouldContinueAt(b, clock);
      EnqueueFacts(subdirs[1..], b1, clock);
      var rest := Enqueue(subdirs[1..], b1, clock).0;
      QueueSizeAppend(if go then [subdirs[0]] else [], rest);
    }
  }

  /** With a clock that never runs out and room under the ceiling, every subdirectory is queued. */
  lemma {:induction false} EnqueueComplete(subdirs: seq<Queued>, b: Budget)
    requires b.matches < MAX_MATCHES
    ensures Enqueue(subdirs, b, Never).0 == subdirs
    decreases |subdirs|
  {
    if subdirs != [] {
      EnqueueComplete(subdirs[1..], ShouldContinueAt(b, Never).1);
      assert [subdirs[0]] + subdirs[1..] == subdirs;
    }
  }

  /** `sort_by_key` puts exact matches first, then prefix matches, then the rest, and keeps every match. */
  lemma LevelSorted(hits: seq<Scored>)
    ensures SortedBy(SortBy(hits, ByScore), ByScore)
    ensures forall h :: h in SortBy(hits, ByScore) <==> h in hits
  {
    assert TotalPreorder(ByScore);
    SortSorted(hits, ByScore);
    var s := SortBy(hits, ByScore);
    forall h ensures h in s <==> h in hits {
      assert h in s <==> h in multiset(s);
    }
  }

  /** A dequeued directory's matches count once each and never pass the ceiling. */
  lemma VisitScoredCounted(v: Queued, token: string, maxDepth: nat, b: Budget, clock: Clock)
    ensures var s := VisitScored(v, token, maxDepth, b, clock);
      && s.budget.matches == b.matches + |s.found|
      && (b.matches <= MAX_MATCHES ==> s.budget.matches <= MAX_MATCHES)
  {
    if v.depth <= maxDepth {
      var (go, b1) := ShouldContinueAt(b, clock);
      if go {
        var scan := ScanEntries(Entries(v.dir), v, token, maxDepth, b1, clock);
        ScanFacts(Entries(v.dir), v, token, maxDepth, b1, clock);
        var emitted := Emit(SortBy(scan.hits, ByScore), scan.budget, clock);
        EmitFacts(SortBy(scan.hits, ByScore), scan.budget, clock);
        EnqueueFacts(scan.subdirs, emitted.budget, clock);
      }
    }
  }

  /** A dequeued directory queues only its own subdirectories, one level deeper and within the limit. */
  lemma VisitScoredQueued(v: Queued, token: string, maxDepth: nat, b: Budget, clock: Clock)
    ensures var s := VisitScored(v, token, maxDepth, b, clock);
      && (forall q :: q in s.queued ==> SubdirOf(q, v, maxDepth))
      && QueueSize(s.queued) < SizeOf(v.dir)
  {
    if v.depth <= maxDepth {
      var (go, b1) := ShouldContinueAt(b, clock);
      if go {
        var scan := ScanEntries(Entries(v.dir), v, token, maxDepth, b1, clock);
        ScanFacts(Entries(v.dir), v, token, maxDepth, b1, clock);
        var emitted := Emit(SortBy(scan.hits, ByScore), scan.budget, clock);
        EnqueueFacts(scan.subdirs, emitted.budget, clock);
      }
    }
  }

  /**
   * A dequeued directory's matches are its own matching subdirectories, at
   * its depth (never past the limit), scored by name, and in score order:
   * exact, then prefix, then other substring matches.
   */
  lemma VisitScoredFound(v: Queued, token: string, maxDepth: nat, b: Budget, clock: Clock)
    ensures var s := VisitScored(v, token, maxDepth, b, clock);
      && (s.found != [] ==> v.depth <= maxDepth)
      && (forall i :: 0 <= i < |s.found| ==> HitFrom(Scored(Score(LastName(s.found[i]), token), s.found[i]), v, token))
      && (forall i, j :: 0 <= i < j < |s.found| ==> Score(LastName(s.found[i]), token) <= Score(LastName(s.found[j]), token))
  {
    if v.depth <= maxDepth {
      var (go, b1) := ShouldContinueAt(b, clock);
      if go {
        var scan := ScanEntries(Entries(v.dir), v, token, maxDepth, b1, clock);
        ScanFacts(Entries(v.dir), v, token, maxDepth, b1, clock);
        var sorted := SortBy(scan.hits, ByScore);
        LevelSorted(scan.hits);
        EmitFacts(sorted, scan.budget, clock);
        var found := Emit(sorted, scan.budget, clock).found;
        forall i | 0 <= i < |found|
          ensures HitFrom(Scored(Score(LastName(found[i]), token), found[i]), v, token)
        {
          assert sorted[i] in scan.hits;
        }
        forall i, j | 0 <= i < j < |found|
          ensures Score(LastName(found[i]), token) <= Score(LastName(found[j]), token)
        {
          assert sorted[i] in scan.hits && sorted[j] in scan.hits;
          assert ByScore(sorted[i], sorted[j]);
        }
      }
    }
  }

  /** The matches of a directory under `root` form one block of the walk from `root`. */
  lemma BlockPlaced(found: seq<DirectoryMatch>, v: Queued, root: Path, token: string, maxDepth: nat)
    requires UnderRoot(root, v)
    requires found != [] ==> v.depth <= maxDepth
    requires forall i :: 0 <= i < |found| ==> HitFrom(Scored(Score(LastName(found[i]), token), found[i]), v, token)
    requires forall i, j :: 0 <= i < j < |found| ==> Score(LastName(found[i]), token) <= Score(LastName(found[j]), token)
    ensures LevelBlock(found, root, token, maxDepth)
  {
    forall m | m in found ensures ScoredPlaced(m, root, token, maxDepth) {
      var i :| 0 <= i < |found| && found[i] == m;
      assert HitFrom(Scored(Score(LastName(found[i]), token), found[i]), v, token);
      assert m.path[..|root|] == m.path[..|v.path|][..|root|];
    }
    forall i, j | 0 <= i < j < |found|
      ensures Parent(found[i]) == Parent(found[j])
    {
      assert HitFrom(Scored(Score(LastName(found[i]), token), found[i]), v, token);
      assert HitFrom(Scored(Score(LastName(found[j]), token), found[j]), v, token);
    }
  }

  /** The subdirectories of a queue item under `root` are under `root` too. */
  lemma QueuedUnder(queued: seq<Queued>, v: Queued, root: Path)
    requires UnderRoot(root, v)
    requires forall q :: q in queued ==> q.depth == v.depth + 1 && q.path == v.path + [q.dir.name]
    ensures forall q :: q in queued ==> UnderRoot(root, q)
  {
    forall q | q in queued ensures UnderRoot(root, q) {
      assert q.path[..|root|] == v.path[..|root|];
    }
  }

  // ----- what the whole walk promises -----

  /** Depths along the queue never decrease and span at most one level. */
  predicate Layered(queue: seq<Queued>) {
    forall i, j :: 0 <= i < j < |queue| ==> queue[i].depth <= queue[j].depth <= queue[i].depth + 1
  }

  /** The walk counts each match it appends and never passes the ceiling. */
  lemma {:induction false} ScoredWalkCounted(queue: seq<Queued>, token: string, maxDepth: nat, b: Budget, clock: Clock)
    ensures var r := ScoredWalk(queue, token, maxDepth, b, clock);
      && r.budget.matches == b.matches + |r.found|
      && (b.matches <= MAX_MATCHES ==> r.budget.matches <= MAX_MATCHES)
    decreases QueueSize(queue)
  {
    if queue != [] {
      var step := VisitScored(queue[0], token, maxDepth, b, clock);
      VisitScoredCounted(queue[0], token, maxDepth, b, clock);
      VisitScoredQueued(queue[0], token, maxDepth, b, clock);
      QueueSizeAppend(queue[1..], step.queued);
      ScoredWalkCounted(queue[1..] + step.queued, token, maxDepth, step.budget, clock);
    }
  }

  /**
   * The walk's matches are blocks, one per visited directory, each ordered
   * exact before prefix before substring, and every match lies below the
   * root within the depth limit and is scored by its name.
   */
  lemma {:induction false} ScoredWalkBlocks(queue: seq<Queued>, root: Path, token: string, maxDepth: nat, b: Budget, clock: Clock)
    requires forall q :: q in queue ==> UnderRoot(root, q)
    ensures exists blocks :: Blocks(ScoredWalk(queue, token, maxDepth, b, clock).found, blocks, root, token, maxDepth)
    decreases QueueSize(queue)
  {
    if queue == [] {
      assert ScoredWalk(queue, token, maxDepth, b, clock).found == [];
      assert Blocks(ScoredWalk(queue, token, maxDepth, b, clock).found, [], root, token, maxDepth);
    } else {
      var step := VisitScored(queue[0], token, maxDepth, b, clock);
      var next := queue[1..] + step.queued;
      ScoredWalkUnfold(queue, token, maxDepth, b, clock);
      VisitBlock(queue[0], root, token, maxDepth, b, clock);
      ScoredWalkBlocks(next, root, token, maxDepth, step.budget, clock);
      var blocks :| Blocks(ScoredWalk(next, token, maxDepth, step.budget, clock).found, blocks, root, token, maxDepth);
      var all := [step.found] + blocks;
      assert all[1..] == blocks;
      assert Blocks(ScoredWalk(queue, token, maxDepth, b, clock).found, all, root, token, maxDepth);
    }
  }

  /** One round of the walk: the head's matches, then the walk of the rest of the queue with the head's subdirectories, which is smaller. */
  lemma ScoredWalkUnfold(queue: seq<Queued>, token: string, maxDepth: nat, b: Budget, clock: Clock)
    requires queue != []
    ensures var step := VisitScored(queue[0], token, maxDepth, b, clock);
      var next := queue[1..] + step.queued;
      && QueueSize(next) < QueueSize(queue)
      && ScoredWalk(queue, token, maxDepth, b, clock).found == step.found + ScoredWalk(next, token, maxDepth, step.budget, clock).found
  {
    var step := VisitScored(queue[0], token, maxDepth, b, clock);
    VisitScoredQueued(queue[0], token, maxDepth, b, clock);
    QueueSizeAppend(queue[1..], step.queued);
  }

  /** Visiting a directory under the root yields one level block and queues only directories under the root. */
  lemma VisitBlock(v: Queued, root: Path, token: string, maxDepth: nat, b: Budget, clock: Clock)
    requires UnderRoot(root, v)
    ensures var step := VisitScored(v, token, maxDepth, b, clock);
      && LevelBlock(step.found, root, token, maxDepth)
      && forall q :: q in step.queued ==> UnderRoot(root, q)
  {
    var step := VisitScored(v, token, maxDepth, b, clock);
    VisitScoredFound(v, token, maxDepth, b, clock);
    VisitScoredQueued(v, token, maxDepth, b, clock);
    BlockPlaced(step.found, v, root, token, maxDepth);
    QueuedUnder(step.queued, v, root);
  }

  /** Every directory a visit queues is one level deeper than the visited one. */
  lemma VisitQueuedDepth(v: Queued, token: string, maxDepth: nat, b: Budget, clock: Clock)
    ensures forall q :: q in VisitScored(v, token, maxDepth, b, clock).queued ==> q.depth == v.depth + 1
  {
    VisitScoredQueued(v, token, maxDepth, b, clock);
  }

  /** Visiting the head of a layered queue and queueing its subdirectories keeps the queue layered. */
  lemma LayeredStep(queue: seq<Queued>, queued: seq<Queued>, maxDepth: nat)
    requires queue != [] && Layered(queue)
    requires forall q :: q in queued ==> q.depth == queue[0].depth + 1
    ensures Layered(queue[1..] + queued)
    ensures queue[1..] + queued != [] ==> queue[0].depth <= (queue[1..] + queued)[0].depth
  {
    var next := queue[1..] + queued;
    if |queue| == 1 && queued != [] {
      assert next[0] == queued[0];
    }
    forall i, j | 0 <= i < j < |next| ensures next[i].depth <= next[j].depth <= next[i].depth + 1 {
      if j < |queue| - 1 {
        assert next[i] == queue[i + 1] && next[j] == queue[j + 1];
      } else if i < |queue| - 1 {
        assert next[i] == queue[i + 1] && next[j] in queued;
      } else {
        assert next[i] in queued && next[j] in queued;
      }
    }
  }

  /**
   * Shallower matches come first: from a layered queue (in particular the
   * initial one) the walk's matches have non-decreasing depths, none
   * shallower than the head of the queue.
   */
  lemma {:induction false} ScoredWalkShallowFirst(queue: seq<Queued>, token: string, maxDepth: nat, b: Budget, clock: Clock)
    requires Layered(queue)
    ensures var r := ScoredWalk(queue, token, maxDepth, b, clock).found;
      && (forall i, j :: 0 <= i < j < |r| ==> r[i].depthFromCurrent <= r[j].depthFromCurrent)
      && (forall m :: m in r ==> queue[0].depth <= m.depthFromCurrent)
    decreases QueueSize(queue)
  {
    if queue != [] {
      var found, next, b' := WalkRound(queue, token, maxDepth, b, clock);
      ScoredWalkShallowFirst(next, token, maxDepth, b', clock);
      ScoredWalkFloor(next, token, maxDepth, b', clock);
      DepthsJoin(found, ScoredWalk(next, token, maxDepth, b', clock).found, queue[0].depth);
    }
  }

  /** No match of the walk from a layered queue is shallower than the head of the queue. */
  lemma {:induction false} ScoredWalkFloor(queue: seq<Queued>, token: string, maxDepth: nat, b: Budget, clock: Clock)
    requires Layered(queue)
    ensures forall m :: m in ScoredWalk(queue, token, maxDepth, b, clock).found ==> queue[0].depth <= m.depthFromCurrent
    decreases QueueSize(queue)
  {
    if queue != [] {
      var found, next, b' := WalkRound(queue, token, maxDepth, b, clock);
      ScoredWalkFloor(next, token, maxDepth, b', clock);
      var rest := ScoredWalk(next, token, maxDepth, b', clock).found;
      forall m: DirectoryMatch | m in found + rest ensures queue[0].depth <= m.depthFromCurrent {
        assert m in found || m in rest;
      }
    }
  }

  /**
   * One round of the walk from a layered queue, in terms of depths only:
   * the head's matches all carry its depth, and the next queue is layered,
   * smaller, and starts no shallower than the head.
   */
  lemma WalkRound(queue: seq<Queued>, token: string, maxDepth: nat, b: Budget, clock: Clock)
    returns (found: seq<DirectoryMatch>, next: seq<Queued>, b': Budget)
    requires queue != [] && Layered(queue)
    ensures ScoredWalk(queue, token, maxDepth, b, clock).found == found + ScoredWalk(next, token, maxDepth, b', clock).found
    ensures QueueSize(next) < QueueSize(queue)
    ensures forall m :: m in found ==> m.depthFromCurrent == queue[0].depth
    ensures Layered(next) && (next != [] ==> queue[0].depth <= next[0].depth)
  {
    var step := VisitScored(queue[0], token, maxDepth, b, clock);
    found, next, b' := step.found, queue[1..] + step.queued, step.budget;
    ScoredWalkUnfold(queue, token, maxDepth, b, clock);
    VisitScoredDepth(queue[0], token, maxDepth, b, clock);
    VisitQueuedDepth(queue[0], token, maxDepth, b, clock);
    LayeredStep(queue, step.queued, maxDepth);
  }

  /** All of one directory's matches carry its depth. */
  lemma VisitScoredDepth(v: Queued, token: string, maxDepth: nat, b: Budget, clock: Clock)
    ensures forall m :: m in VisitScored(v, token, maxDepth, b, clock).found ==> m.depthFromCurrent == v.depth
  {
    var found := VisitScored(v, token, maxDepth, b, clock).found;
    VisitScoredFound(v, token, maxDepth, b, clock);
    forall m | m in found ensures m.depthFromCurrent == v.depth {
      var i :| 0 <= i < |found| && found[i] == m;
      assert HitFrom(Scored(Score(LastName(found[i]), token), found[i]), v, token);
    }
  }

  /** Matches all at depth `d` followed by depth-ordered matches no shallower than `d` are depth-ordered. */
  lemma DepthsJoin(a: seq<DirectoryMatch>, rest: seq<DirectoryMatch>, d: int)
    requires forall m :: m in a ==> m.depthFromCurrent == d
    requires forall m :: m in rest ==> d <= m.depthFromCurrent
    requires forall i, j :: 0 <= i < j < |rest| ==> rest[i].depthFromCurrent <= rest[j].depthFromCurrent
    ensures forall i, j :: 0 <= i < j < |a + rest| ==> (a + rest)[i].depthFromCurrent <= (a + rest)[j].depthFromCurrent
    ensures forall m :: m in a + rest ==> d <= m.depthFromCurrent
  {
    var r := a + rest;
    forall i, j | 0 <= i < j < |r| ensures r[i].depthFromCurrent <= r[j].depthFromCurrent {
      if j < |a| {
        assert r[i] in a && r[j] in a;
      } else if i < |a| {
        assert r[i] in a && r[j] in rest;
      } else {
        assert r[i] == rest[i - |a|] && r[j] == rest[j - |a|];
      }
    }
  }

  /** The walk of `search_breadth_first` in particular: blocks, shallow first, counted. */
  lemma BreadthFirstShape(root: Dir, rootPath: Path, token: string, maxDepth: nat, b: Budget, clock: Clock)
    ensures var r := BreadthFirst(root, rootPath, token, maxDepth, b, clock);
      && (exists blocks :: Blocks(r.found, blocks, rootPath, token, maxDepth))
      && (forall m :: m in r.found ==> ScoredPlaced(m, rootPath, token, maxDepth))
      && (forall i, j :: 0 <= i < j < |r.found| ==> r.found[i].depthFromCurrent <= r.found[j].depthFromCurrent)
      && r.budget.matches == b.matches + |r.found|
      && (b.matches <= MAX_MATCHES ==> r.budget.matches <= MAX_MATCHES)
      && (forall m :: m in r.found ==> Reachable(root, m.path[|rootPath|..]))
  {
    var queue := [Queued(root, rootPath, 0)];
    assert UnderRoot(rootPath, queue[0]);
    ReachesSelf(root);
    assert rootPath[|rootPath|..] == [];
    assert InTree(root, rootPath, queue[0]);
    ScoredWalkInTree(queue, root, rootPath, token, maxDepth, b, clock);
    var r := BreadthFirst(root, rootPath, token, maxDepth, b, clock);
    assert r == ScoredWalk(queue, token, maxDepth, b, clock);
    ScoredWalkBlocks(queue, rootPath, token, maxDepth, b, clock);
    var blocks :| Blocks(ScoredWalk(queue, token, maxDepth, b, clock).found, blocks, rootPath, token, maxDepth);
    assert Blocks(r.found, blocks, rootPath, token, maxDepth);
    BlocksPlaced(blocks, rootPath, token, maxDepth);
    ScoredWalkShallowFirst(queue, token, maxDepth, b, clock);
    ScoredWalkCounted(queue, token, maxDepth, b, clock);
  }

  /** Every match in a sequence of blocks is placed. */
  lemma {:induction false} BlocksPlaced(blocks: seq<seq<DirectoryMatch>>, root: Path, token: string, maxDepth: nat)
    requires forall k :: 0 <= k < |blocks| ==> LevelBlock(blocks[k], root, token, maxDepth)
    ensures forall m :: m in Concat(blocks) ==> ScoredPlaced(m, root, token, maxDepth)
    decreases |blocks|
  {
    if blocks != [] {
      assert LevelBlock(blocks[0], root, token, maxDepth);
      forall k | 0 <= k < |blocks[1..]| ensures LevelBlock(blocks[1..][k], root, token, maxDepth) {
        assert blocks[1..][k] == blocks[k + 1];
      }
      BlocksPlaced(blocks[1..], root, token, maxDepth);
    }
  }

  // ----- the walk stays in the tree -----

  /** A queue item under `root` whose directory is the one its path leads to from `top`, the directory at `root`. */
  ghost predicate InTree(top: Dir, root: Path, q: Queued) {
    UnderRoot(root, q) && Reaches(top, q.path[|root|..], q.dir)
  }

  /** One visit of an item in the tree reports only existing directories and queues only items in the tree. */
  lemma VisitInTree(v: Queued, top: Dir, root: Path, token: string, maxDepth: nat, b: Budget, clock: Clock)
    requires InTree(top, root, v)
    ensures var s := VisitScored(v, token, maxDepth, b, clock);
      && (forall m :: m in s.found ==> |root| <= |m.path| && m.path[..|root|] == root && Reachable(top, m.path[|root|..]))
      && (forall q :: q in s.queued ==> InTree(top, root, q))
  {
    var s := VisitScored(v, token, maxDepth, b, clock);
    VisitScoredFound(v, token, maxDepth, b, clock);
    VisitScoredQueued(v, token, maxDepth, b, clock);
    HitsInTree(s.found, v, top, root, token);
    SubdirsInTree(s.queued, v, top, root, maxDepth);
  }

  lemma HitsInTree(found: seq<DirectoryMatch>, v: Queued, top: Dir, root: Path, token: string)
    requires InTree(top, root, v)
    requires forall i :: 0 <= i < |found| ==> HitFrom(Scored(Score(LastName(found[i]), token), found[i]), v, token)
    ensures forall m :: m in found ==> |root| <= |m.path| && m.path[..|root|] == root && Reachable(top, m.path[|root|..])
  {
    forall m | m in found ensures |root| <= |m.path| && m.path[..|root|] == root && Reachable(top, m.path[|root|..]) {
      var i :| 0 <= i < |found| && found[i] == m;
      assert HitFrom(Scored(Score(LastName(found[i]), token), found[i]), v, token);
      ListedInTree(m, v, top, root);
    }
  }

  /** A path one listed name below an item in the tree names an existing directory. */
  lemma ListedInTree(m: DirectoryMatch, v: Queued, top: Dir, root: Path)
    requires InTree(top, root, v)
    requires LastName(m) in Names(Entries(v.dir))
    requires |m.path| == |v.path| + 1 && m.path[..|v.path|] == v.path
    ensures |root| <= |m.path| && m.path[..|root|] == root && Reachable(top, m.path[|root|..])
  {
    var rel := v.path[|root|..];
    ReachesListed(top, rel, v.dir, LastName(m));
    assert m.path == v.path + [LastName(m)];
    assert m.path[|root|..] == rel + [LastName(m)];
    assert m.path[..|root|] == v.path[..|root|];
  }

  lemma SubdirsInTree(queued: seq<Queued>, v: Queued, top: Dir, root: Path, maxDepth: nat)
    requires InTree(top, root, v)
    requires forall q :: q in queued ==> SubdirOf(q, v, maxDepth)
    ensures forall q :: q in queued ==> InTree(top, root, q)
  {
    var rel := v.path[|root|..];
    forall q | q in queued ensures InTree(top, root, q) {
      ReachesEntry(top, rel, v.dir, q.dir);
      assert q.path[|root|..] == rel + [q.dir.name];
      assert q.path[..|root|] == v.path[..|root|];
    }
  }

  /** From a queue of items in the tree, every match of the walk names an existing directory below `top`. */
  lemma {:induction false} ScoredWalkInTree(queue: seq<Queued>, top: Dir, root: Path, token: string, maxDepth: nat, b: Budget, clock: Clock)
    requires forall q :: q in queue ==> InTree(top, root, q)
    ensures forall m :: m in ScoredWalk(queue, token, maxDepth, b, clock).found ==>
      |root| <= |m.path| && m.path[..|root|] == root && Reachable(top, m.path[|root|..])
    decreases QueueSize(queue)
  {
    if queue != [] {
      var step := VisitScored(queue[0], token, maxDepth, b, clock);
      var next := queue[1..] + step.queued;
      ScoredWalkUnfold(queue, token, maxDepth, b, clock);
      VisitInTree(queue[0], top, root, token, maxDepth, b, clock);
      assert forall q :: q in next ==> q in queue[1..] || q in step.queued;
      ScoredWalkInTree(next, top, root, token, maxDepth, step.budget, clock);
      var rest := ScoredWalk(next, token, maxDepth, step.budget, clock).found;
      forall m: DirectoryMatch | m in step.found + rest
        ensures |root| <= |m.path| && m.path[..|root|] == root && Reachable(top, m.path[|root|..])
      {
        assert m in step.found || m in rest;
      }
    }
  }
}
