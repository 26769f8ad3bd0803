/**
 * `search_down_breadth_first_all`: a breadth-first walk below the start
 * directory, at most 8 levels deep, that stops at the first directory (in
 * breadth-first order) with a matching subdirectory and returns that
 * directory's matches, finalized.
 *
 * The walk is proved to visit the directories level by level: `Level(k)`
 * holds the directories `k` levels below the start, each level's
 * directories in the order their parents were visited and, per parent, by
 * name. `Order(start, Children)` is levels 0 to 8 in turn.
 */
module BreadthFirstAll {
  import opened Text
  import opened Sorting
  import opened Matches
  import opened Tree

  const MAX_DEPTH: nat := 8

  /** A queue item: a directory, its path and its distance below the start. */
  datatype Visit = Visit(dir: Dir, path: Path, depth: nat)

  predicate PrefixOf<T(==)>(a: seq<T>, b: seq<T>) {
    |a| <= |b| && b[..|a|] == a
  }

  /** The queue items for the entries `es` of `v`. */
  function ChildVisits(v: Visit, es: seq<Dir>): seq<Visit>
    decreases |es|
  {
    if es == [] then []
    else ChildVisits(v, es[..|es| - 1]) + [Visit(es[|es| - 1], v.path + [es[|es| - 1].name], v.depth + 1)]
  }

  lemma {:induction false} ChildVisitsDeeper(v: Visit, es: seq<Dir>)
    ensures forall c :: c in ChildVisits(v, es) ==> c.depth == v.depth + 1
    ensures forall c :: c in ChildVisits(v, es) ==> c.dir in es && c.path == v.path + [c.dir.name]
    decreases |es|
  {
    if es != [] {
      ChildVisitsDeeper(v, es[..|es| - 1]);
    }
  }

  /** What a visit enqueues: its subdirectories by name, unless it is at the depth limit. */
  function Children(v: Visit): seq<Visit> {
    if v.depth < MAX_DEPTH then ChildVisits(v, SortedEntries(v.dir)) else []
  }

  /**
   * The level structure below is stated for any `ch` that, like `Children`,
   * gives items one level deeper and nothing at the depth limit.
   */
  ghost predicate Deepening(ch: Visit -> seq<Visit>) {
    && (forall v, c :: c in ch(v) ==> c.depth == v.depth + 1)
    && (forall v: Visit :: v.depth >= MAX_DEPTH ==> ch(v) == [])
  }

  lemma ChildrenDeepening()
    ensures Deepening(Children)
  {
    forall v, c | c in Children(v) ensures c.depth == v.depth + 1 {
      ChildVisitsDeeper(v, SortedEntries(v.dir));
    }
  }

  /** Like `Children`, `ch` gives subdirectories, each with its parent's path and its own name. */
  ghost predicate Descending(ch: Visit -> seq<Visit>) {
    forall v, c :: c in ch(v) ==> c.path == v.path + [c.dir.name]
  }

  lemma ChildrenDescending()
    ensures Descending(Children)
  {
    forall v, c | c in Children(v) ensures c.path == v.path + [c.dir.name] {
      ChildDescends(v, c);
    }
  }

  lemma ChildDescends(v: Visit, c: Visit)
    requires c in Children(v)
    ensures c.dir in v.dir.children && c.path == v.path + [c.dir.name]
  {
    var es := SortedEntries(v.dir);
    ChildVisitsDeeper(v, es);
    SortedEntriesSorted(v.dir);
  }

  /** What visiting `vs` in turn enqueues. */
  function Expand(vs: seq<Visit>, ch: Visit -> seq<Visit>): seq<Visit>
    decreases |vs|
  {
    if vs == [] then [] else Expand(vs[..|vs| - 1], ch) + ch(vs[|vs| - 1])
  }

  /** The items `k` levels below `start`. */
  function Level(start: Visit, ch: Visit -> seq<Visit>, k: nat): seq<Visit>
    decreases k
  {
    if k == 0 then [start] else Expand(Level(start, ch, k - 1), ch)
  }

  /** Levels `0` to `k - 1` in turn. */
  function Levels(start: Visit, ch: Visit -> seq<Visit>, k: nat): seq<Visit>
    decreases k
  {
    if k == 0 then [] else Levels(start, ch, k - 1) + Level(start, ch, k - 1)
  }

  /** How many levels there are from the start down to the depth limit. */
  function LevelCount(start: Visit): nat {
    if start.depth <= MAX_DEPTH then MAX_DEPTH + 1 - start.depth else 0
  }

  /** Levels from the start down to the depth limit. */
  function Order(start: Visit, ch: Visit -> seq<Visit>): seq<Visit> {
    Levels(start, ch, LevelCount(start))
  }


  // ----- what a visit finds -----

  /** The match an entry `e` of `v` gives: it is labelled with the depth of `v`. */
  function EntryMatch(v: Visit, e: Dir, token: string): seq<DirectoryMatch> {
    match Classify(e.name, token)
    case Exact => [DirectoryMatch(v.path + [e.name], v.depth, ExactDown)]
    case Partial => [DirectoryMatch(v.path + [e.name], v.depth, PartialDown)]
    case NoMatch => []
  }

  function EntryMatches(v: Visit, es: seq<Dir>, token: string): seq<DirectoryMatch>
    decreases |es|
  {
    if es == [] then [] else EntryMatches(v, es[..|es| - 1], token) + EntryMatch(v, es[|es| - 1], token)
  }

  /** The matches among the subdirectories of one visited directory, in name order. */
  function LevelMatches(v: Visit, token: string): seq<DirectoryMatch> {
    EntryMatches(v, SortedEntries(v.dir), token)
  }

  /** The finalized matches of the first visit in `vs` that has any. */
  function FirstMatches(vs: seq<Visit>, token: string): seq<DirectoryMatch>
    decreases |vs|
  {
    if vs == [] then []
    else if LevelMatches(vs[0], token) != [] then FinalizeMatches(LevelMatches(vs[0], token))
    else FirstMatches(vs[1..], token)
  }

  function StartVisit(root: Dir, cwd: Path): Visit {
    Visit(DirAt(root, cwd), cwd, 0)
  }

  /** What the downward walk returns. */
  function DownAll(root: Dir, cwd: Path, token: string): seq<DirectoryMatch> {
    FirstMatches(Order(StartVisit(root, cwd), Children), token)
  }

  method SearchDownBreadthFirstAll(root: Dir, cwd: Path, token: string) returns (result: seq<DirectoryMatch>)
    ensures result == DownAll(root, cwd, token)
  {
    result := Walk(StartVisit(root, cwd), token);
  }

  /**
   * The state of the walk: `visited` (the items dequeued so far) followed by
   * the queue is the start followed by everything `visited` enqueued; it is
   * a prefix of the breadth-first order; and no visited directory within the
   * depth limit had a match.
   */
  ghost predicate Walking(start: Visit, token: string, visited: seq<Visit>, queue: seq<Visit>) {
    && visited + queue == [start] + Expand(visited, Children)
    && PrefixOf(visited + queue, Order(start, Children))
    && forall u :: u in visited && u.depth <= MAX_DEPTH ==> LevelMatches(u, token) == []
  }

  /** The walk with its queue, from `start`. */
  method Walk(start: Visit, token: string) returns (result: seq<DirectoryMatch>)
    requires start.depth <= MAX_DEPTH
    ensures result == FirstMatches(Order(start, Children), token)
  {
    ghost var order := Order(start, Children);
    var queue := [start];
    ghost var visited: seq<Visit> := [];
    var allMatches: seq<DirectoryMatch> := [];
    var tokenLower := Lower(token);
    WalkStart(start, token);
    while queue != []
      invariant Walking(start, token, visited, queue)
      invariant allMatches == []
      decreases |order| - |visited|
    {
      ghost var before := queue;
      var v := queue[0];
      queue := queue[1..];
      if v.depth > MAX_DEPTH {
        WalkOn(start, token, visited, before);
        assert queue + Children(v) == queue;
        visited := visited + [v];
        continue;
      }
      var entries := SortedEntries(v.dir);
      var levelMatches, levelSubdirs := ScanDirectory(v, entries, tokenLower, token);
      allMatches := allMatches + levelMatches;
      assert allMatches == levelMatches;
      if v.depth == 0 && levelMatches != [] {
        WalkFound(start, token, visited, before);
        return FinalizeMatches(levelMatches);
      }
      if v.depth > 0 && levelMatches != [] && allMatches != [] {
        WalkFound(start, token, visited, before);
        return FinalizeMatches(allMatches);
      }
      WalkOn(start, token, visited, before);
      queue := queue + levelSubdirs;
      visited := visited + [v];
    }
    WalkDone(start, token, visited);
    result := FinalizeMatches(allMatches);
    assert |result| == 0;
  }

  lemma WalkStart(start: Visit, token: string)
    requires start.depth <= MAX_DEPTH
    ensures Walking(start, token, [], [start])
  {
    StartIsFirst(start, Children);
    assert [] + [start] == [start] + Expand([], Children);
  }

  /** A round that finds nothing dequeues the head and enqueues its children. */
  lemma WalkOn(start: Visit, token: string, visited: seq<Visit>, queue: seq<Visit>)
    requires start.depth <= MAX_DEPTH
    requires Walking(start, token, visited, queue) && queue != []
    requires queue[0].depth <= MAX_DEPTH ==> LevelMatches(queue[0], token) == []
    ensures Walking(start, token, visited + [queue[0]], queue[1..] + Children(queue[0]))
    ensures |visited| < |Order(start, Children)|
    ensures queue[0].depth > MAX_DEPTH ==> Children(queue[0]) == []
  {
    ChildrenDeepening();
    WalkStep(start, Children, visited, queue);
    forall u | u in visited + [queue[0]] && u.depth <= MAX_DEPTH ensures LevelMatches(u, token) == [] {
      if u != queue[0] {
        assert u in visited;
      }
    }
  }

  /** A round that finds matches ends the walk with them. */
  lemma WalkFound(start: Visit, token: string, visited: seq<Visit>, queue: seq<Visit>)
    requires start.depth <= MAX_DEPTH
    requires Walking(start, token, visited, queue) && queue != []
    requires LevelMatches(queue[0], token) != []
    ensures FirstMatches(Order(start, Children), token) == FinalizeMatches(LevelMatches(queue[0], token))
  {
    HeadPrefix(visited, queue, Order(start, Children));
    FoundAt(start, Order(start, Children), visited, queue[0], token);
  }

  /** A walk whose queue ran dry found nothing. */
  lemma WalkDone(start: Visit, token: string, visited: seq<Visit>)
    requires start.depth <= MAX_DEPTH
    requires Walking(start, token, visited, [])
    ensures FirstMatches(Order(start, Children), token) == []
  {
    assert visited + [] == visited;
    ExhaustedOrder(start, Children, visited);
    NoneFound(start, Order(start, Children), token);
  }

  /**
   * The scan of the entries of one dequeued directory: each classified
   * against the lower-cased token, and each queued one level deeper unless
   * the directory is at the depth limit.
   */
  method ScanDirectory(v: Visit, entries: seq<Dir>, tokenLower: string, token: string)
    returns (levelMatches: seq<DirectoryMatch>, levelSubdirs: seq<Visit>)
    requires tokenLower == Lower(token)
    ensures levelMatches == EntryMatches(v, entries, token)
    ensures levelSubdirs == if v.depth < MAX_DEPTH then ChildVisits(v, entries) else []
  {
    levelMatches := [];
    levelSubdirs := [];
    var i := 0;
    while i < |entries|
      invariant 0 <= i <= |entries|
      invariant levelMatches == EntryMatches(v, entries[..i], token)
      invariant levelSubdirs == if v.depth < MAX_DEPTH then ChildVisits(v, entries[..i]) else []
    {
      var e := entries[i];
      var path := v.path + [e.name];
      var nameLower := Lower(e.name);
      var shown := if v.depth == 0 then 0 else v.depth;
      EntryRound(v, entries, i, token, nameLower, tokenLower);
      ghost var next := EntryMatches(v, entries[..i + 1], token);
      if nameLower == tokenLower {
        levelMatches := levelMatches + [DirectoryMatch(path, shown, ExactDown)];
        assert levelMatches == next;
      } else if Contains(nameLower, tokenLower) {
        levelMatches := levelMatches + [DirectoryMatch(path, shown, PartialDown)];
        assert levelMatches == next;
      } else {
        assert levelMatches == next;
      }
      if v.depth < MAX_DEPTH {
        levelSubdirs := levelSubdirs + [Visit(e, path, v.depth + 1)];
        assert levelSubdirs == ChildVisits(v, entries[..i + 1]);
      }
      i := i + 1;
    }
    assert entries[..i] == entries;
  }

  /** Scanning one more entry adds its match and its queue item. */
  lemma EntryStep(v: Visit, es: seq<Dir>, i: nat, token: string)
    requires i < |es|
    ensures EntryMatches(v, es[..i + 1], token) == EntryMatches(v, es[..i], token) + EntryMatch(v, es[i], token)
    ensures ChildVisits(v, es[..i + 1]) == ChildVisits(v, es[..i]) + [Visit(es[i], v.path + [es[i].name], v.depth + 1)]
  {
    assert es[..i + 1][..i] == es[..i];
  }

  /** One round of the entry loop, in the terms the loop computes it in. */
  lemma EntryRound(v: Visit, es: seq<Dir>, i: nat, token: string, name: string, t: string)
    requires i < |es|
    requires name == Lower(es[i].name) && t == Lower(token)
    ensures EntryMatches(v, es[..i + 1], token) == EntryMatches(v, es[..i], token)
      + if name == t then [DirectoryMatch(v.path + [es[i].name], v.depth, ExactDown)]
        else if Contains(name, t) then [DirectoryMatch(v.path + [es[i].name], v.depth, PartialDown)]
        else []
    ensures ChildVisits(v, es[..i + 1]) == ChildVisits(v, es[..i]) + [Visit(es[i], v.path + [es[i].name], v.depth + 1)]
  {
    EntryStep(v, es, i, token);
    EntryMatchLowered(v, es[i], token);
  }

  /** The entry's match, in the terms the walk computes it in. */
  lemma EntryMatchLowered(v: Visit, e: Dir, token: string)
    ensures EntryMatch(v, e, token)
      == if Lower(e.name) == Lower(token) then [DirectoryMatch(v.path + [e.name], v.depth, ExactDown)]
         else if Contains(Lower(e.name), Lower(token)) then [DirectoryMatch(v.path + [e.name], v.depth, PartialDown)]
         else []
  {
  }

  // ----- the level structure -----

  lemma {:induction false} ExpandAppend(a: seq<Visit>, b: seq<Visit>, ch: Visit -> seq<Visit>)
    ensures Expand(a + b, ch) == Expand(a, ch) + Expand(b, ch)
    decreases |b|
  {
    if b == [] {
      assert a + b == a;
    } else {
      var b' := b[..|b| - 1];
      var last := b[|b| - 1];
      assert (a + b)[..|a + b| - 1] == a + b' && (a + b)[|a + b| - 1] == last;
      assert Expand(a + b, ch) == Expand(a + b', ch) + ch(last);
      assert Expand(b, ch) == Expand(b', ch) + ch(last);
      ExpandAppend(a, b', ch);
      assert Expand(a + b, ch) == (Expand(a, ch) + Expand(b', ch)) + ch(last);
    }
  }

  lemma PrefixSplit<T>(o: seq<T>, p: seq<T>, n: nat)
    requires PrefixOf(p, o) && |p| <= n <= |o|
    ensures o[..n] == p + o[|p|..n]
  {
  }

  /** One more level: the start followed by what levels `0..k` enqueue is levels `0..k+1`. */
  lemma {:induction false} ExpandLevels(start: Visit, ch: Visit -> seq<Visit>, k: nat)
    ensures [start] + Expand(Levels(start, ch, k), ch) == Levels(start, ch, k + 1)
    decreases k
  {
    if k > 0 {
      var p, l := Levels(start, ch, k - 1), Level(start, ch, k - 1);
      calc {
        [start] + Expand(Levels(start, ch, k), ch);
        [start] + Expand(p + l, ch);
        { ExpandAppend(p, l, ch); }
        [start] + (Expand(p, ch) + Expand(l, ch));
        ([start] + Expand(p, ch)) + Expand(l, ch);
        { ExpandLevels(start, ch, k - 1); }
        Levels(start, ch, k) + Expand(l, ch);
        Levels(start, ch, k) + Level(start, ch, k);
        Levels(start, ch, k + 1);
      }
    }
  }

  lemma {:induction false} ExpandDepths(vs: seq<Visit>, ch: Visit -> seq<Visit>, d: nat)
    requires Deepening(ch)
    requires forall u :: u in vs ==> u.depth == d
    ensures forall c :: c in Expand(vs, ch) ==> c.depth == d + 1
    ensures d >= MAX_DEPTH ==> Expand(vs, ch) == []
    decreases |vs|
  {
    if vs != [] {
      ExpandDepths(vs[..|vs| - 1], ch, d);
      assert vs[|vs| - 1] in vs;
    }
  }

  /** Level `k` holds items `k` levels below the start, and nothing past the limit. */
  lemma {:induction false} LevelDepth(start: Visit, ch: Visit -> seq<Visit>, k: nat)
    requires Deepening(ch)
    ensures forall u :: u in Level(start, ch, k) ==> u.depth == start.depth + k
    ensures k > 0 && start.depth + k > MAX_DEPTH ==> Level(start, ch, k) == []
    decreases k
  {
    if k > 0 {
      LevelDepth(start, ch, k - 1);
      ExpandDepths(Level(start, ch, k - 1), ch, start.depth + k - 1);
    }
  }

  /** The depths along `Levels(start, ch, k)` never decrease and stay below `start.depth + k`. */
  lemma {:induction false} LevelsDepths(start: Visit, ch: Visit -> seq<Visit>, k: nat)
    requires Deepening(ch)
    ensures forall i :: 0 <= i < |Levels(start, ch, k)| ==> Levels(start, ch, k)[i].depth < start.depth + k
    ensures forall i, j :: 0 <= i < j < |Levels(start, ch, k)| ==>
      Levels(start, ch, k)[i].depth <= Levels(start, ch, k)[j].depth
    decreases k
  {
    if k > 0 {
      LevelsDepths(start, ch, k - 1);
      LevelDepth(start, ch, k - 1);
      DepthsAppend(Levels(start, ch, k - 1), Level(start, ch, k - 1), start.depth + k - 1);
    }
  }

  /** Appending a level of depth `d` to a sequence that is shallower and in depth order keeps it in depth order. */
  lemma DepthsAppend(p: seq<Visit>, l: seq<Visit>, d: nat)
    requires forall i :: 0 <= i < |p| ==> p[i].depth < d
    requires forall i, j :: 0 <= i < j < |p| ==> p[i].depth <= p[j].depth
    requires forall u :: u in l ==> u.depth == d
    ensures forall i :: 0 <= i < |p + l| ==> (p + l)[i].depth < d + 1
    ensures forall i, j :: 0 <= i < j < |p + l| ==> (p + l)[i].depth <= (p + l)[j].depth
  {
    var o := p + l;
    forall i | 0 <= i < |o| ensures o[i].depth < d + 1 {
      if i >= |p| {
        assert o[i] == l[i - |p|] && l[i - |p|] in l;
      }
    }
    forall i, j | 0 <= i < j < |o| ensures o[i].depth <= o[j].depth {
      if j >= |p| {
        assert o[j] == l[j - |p|] && l[j - |p|] in l;
        if i >= |p| {
          assert o[i] == l[i - |p|] && l[i - |p|] in l;
        }
      }
    }
  }

  /** Nothing at the depth limit enqueues anything, so the order is closed under the walk. */
  lemma OrderIsClosed(start: Visit, ch: Visit -> seq<Visit>)
    requires Deepening(ch) && start.depth <= MAX_DEPTH
    ensures [start] + Expand(Order(start, ch), ch) == Order(start, ch)
  {
    ExpandLevels(start, ch, LevelCount(start));
    LevelDepth(start, ch, LevelCount(start));
  }

  lemma {:induction false} LevelsPrefix(start: Visit, ch: Visit -> seq<Visit>, k: nat, m: nat)
    requires k <= m
    ensures PrefixOf(Levels(start, ch, k), Levels(start, ch, m))
    decreases m - k
  {
    if k < m {
      LevelsPrefix(start, ch, k, m - 1);
    }
  }

  /**
   * One round of the walk keeps both queue invariants: what has been
   * dequeued and what is queued is the start followed by what the dequeued
   * items enqueued, and it is a prefix of the order.
   */
  lemma WalkStep(start: Visit, ch: Visit -> seq<Visit>, visited: seq<Visit>, queue: seq<Visit>)
    requires Deepening(ch) && start.depth <= MAX_DEPTH
    requires queue != []
    requires visited + queue == [start] + Expand(visited, ch)
    requires PrefixOf(visited + queue, Order(start, ch))
    ensures (visited + [queue[0]]) + (queue[1..] + ch(queue[0])) == [start] + Expand(visited + [queue[0]], ch)
    ensures PrefixOf((visited + [queue[0]]) + (queue[1..] + ch(queue[0])), Order(start, ch))
    ensures PrefixOf(visited + [queue[0]], Order(start, ch))
    ensures |visited| < |Order(start, ch)|
  {
    QueueStep(start, ch, visited, queue);
    HeadPrefix(visited, queue, Order(start, ch));
    ExpandedPrefix(start, ch, visited + [queue[0]]);
  }

  /** Dequeuing the head and enqueuing its children keeps the queue equation. */
  lemma QueueStep(start: Visit, ch: Visit -> seq<Visit>, visited: seq<Visit>, queue: seq<Visit>)
    requires queue != []
    requires visited + queue == [start] + Expand(visited, ch)
    ensures (visited + [queue[0]]) + (queue[1..] + ch(queue[0])) == [start] + Expand(visited + [queue[0]], ch)
  {
    var v := queue[0];
    ExpandSnoc(visited, v, ch);
    Shift(visited, queue, ch(v));
    assert ([start] + Expand(visited, ch)) + ch(v) == [start] + (Expand(visited, ch) + ch(v));
  }

  lemma ExpandSnoc(visited: seq<Visit>, v: Visit, ch: Visit -> seq<Visit>)
    ensures Expand(visited + [v], ch) == Expand(visited, ch) + ch(v)
  {
    var a := visited + [v];
    assert a[..|a| - 1] == visited && a[|a| - 1] == v;
  }

  /** Moving the queue's head to the visited list keeps the whole sequence. */
  lemma Shift<T>(visited: seq<T>, queue: seq<T>, extra: seq<T>)
    requires queue != []
    ensures (visited + [queue[0]]) + (queue[1..] + extra) == (visited + queue) + extra
  {
    assert queue == [queue[0]] + queue[1..];
  }

  lemma HeadPrefix<T>(visited: seq<T>, queue: seq<T>, o: seq<T>)
    requires queue != []
    requires PrefixOf(visited + queue, o)
    ensures PrefixOf(visited + [queue[0]], o)
  {
    assert visited + [queue[0]] == (visited + queue)[..|visited| + 1];
  }

  lemma StartIsFirst(start: Visit, ch: Visit -> seq<Visit>)
    requires start.depth <= MAX_DEPTH
    ensures PrefixOf([start], Order(start, ch))
  {
    LevelsPrefix(start, ch, 1, LevelCount(start));
    assert Levels(start, ch, 1) == [start];
  }

  /** What a prefix of the order enqueues, after the start, is again a prefix of the order. */
  lemma ExpandedPrefix(start: Visit, ch: Visit -> seq<Visit>, a: seq<Visit>)
    requires Deepening(ch) && start.depth <= MAX_DEPTH
    requires PrefixOf(a, Order(start, ch))
    ensures PrefixOf([start] + Expand(a, ch), Order(start, ch))
  {
    var o := Order(start, ch);
    OrderIsClosed(start, ch);
    assert o == a + o[|a|..];
    ExpandAppend(a, o[|a|..], ch);
    assert o == ([start] + Expand(a, ch)) + Expand(o[|a|..], ch);
    PrefixOfConcat([start] + Expand(a, ch), Expand(o[|a|..], ch));
  }

  lemma PrefixOfConcat<T>(x: seq<T>, y: seq<T>)
    ensures PrefixOf(x, x + y)
  {
    assert (x + y)[..|x|] == x;
  }

  /** The first `n` items of the order enqueue at least `n` items, unless they are all of it. */
  lemma {:induction false} Productive(start: Visit, ch: Visit -> seq<Visit>, n: nat, k: nat)
    requires k <= LevelCount(start)
    requires |Levels(start, ch, k)| <= n < |Order(start, ch)|
    ensures |Expand(Order(start, ch)[..n], ch)| >= n
    decreases LevelCount(start) - k
  {
    var o := Order(start, ch);
    if n < |Levels(start, ch, k + 1)| {
      LevelsPrefix(start, ch, k, LevelCount(start));
      var p := Levels(start, ch, k);
      var rest := o[|p|..n];
      PrefixSplit(o, p, n);
      ExpandAppend(p, rest, ch);
      ExpandLevels(start, ch, k);
      assert |Expand(p, ch)| + 1 == |Levels(start, ch, k + 1)|;
      assert |Expand(o[..n], ch)| == |Expand(p, ch)| + |Expand(rest, ch)|;
    } else {
      Productive(start, ch, n, k + 1);
    }
  }

  /** A queue that has run dry has visited the whole order. */
  lemma ExhaustedOrder(start: Visit, ch: Visit -> seq<Visit>, visited: seq<Visit>)
    requires PrefixOf(visited, Order(start, ch))
    requires visited == [start] + Expand(visited, ch)
    ensures visited == Order(start, ch)
  {
    if |visited| < |Order(start, ch)| {
      Productive(start, ch, |visited|, 0);
      assert false;
    }
  }

  // ----- where the visited directories are -----

  /** `u` lies `n` levels below the path `p`. */
  predicate Under(p: Path, u: Visit, n: nat) {
    |u.path| == |p| + n && u.path[..|p|] == p
  }

  lemma {:induction false} ExpandUnder(vs: seq<Visit>, ch: Visit -> seq<Visit>, p: Path, n: nat)
    requires Descending(ch)
    requires forall u :: u in vs ==> Under(p, u, n)
    ensures forall c :: c in Expand(vs, ch) ==> Under(p, c, n + 1)
    decreases |vs|
  {
    if vs != [] {
      var last := vs[|vs| - 1];
      ExpandUnder(vs[..|vs| - 1], ch, p, n);
      assert last in vs;
      forall c | c in ch(last) ensures Under(p, c, n + 1) {
        assert c.path[..|p|] == last.path[..|p|];
      }
    }
  }

  /** Level `k` lies `k` levels below the start's path. */
  lemma {:induction false} LevelUnder(start: Visit, ch: Visit -> seq<Visit>, k: nat)
    requires Descending(ch)
    ensures forall u :: u in Level(start, ch, k) ==> Under(start.path, u, k)
    decreases k
  {
    if k > 0 {
      LevelUnder(start, ch, k - 1);
      ExpandUnder(Level(start, ch, k - 1), ch, start.path, k - 1);
    }
  }

  /** Everything in `Levels(start, ch, k)` is in one of its levels. */
  lemma {:induction false} LevelsMember(start: Visit, ch: Visit -> seq<Visit>, k: nat, u: Visit)
    requires u in Levels(start, ch, k)
    ensures exists j :: 0 <= j < k && u in Level(start, ch, j)
    decreases k
  {
    if u !in Level(start, ch, k - 1) {
      LevelsMember(start, ch, k - 1, u);
    }
  }

  /**
   * Every directory the walk visits lies below the start, as many levels
   * below it as its depth says, within the depth limit.
   */
  lemma OrderUnder(start: Visit)
    ensures forall u :: u in Order(start, Children) ==>
      start.depth <= u.depth <= MAX_DEPTH && Under(start.path, u, u.depth - start.depth)
  {
    ChildrenDeepening();
    ChildrenDescending();
    forall u | u in Order(start, Children)
      ensures start.depth <= u.depth <= MAX_DEPTH && Under(start.path, u, u.depth - start.depth)
    {
      LevelsMember(start, Children, LevelCount(start), u);
      var j :| 0 <= j < LevelCount(start) && u in Level(start, Children, j);
      LevelDepth(start, Children, j);
      LevelUnder(start, Children, j);
    }
  }

  /** Every item of the order is within the depth limit. */
  lemma OrderDepths(start: Visit)
    requires start.depth <= MAX_DEPTH
    ensures forall u :: u in Order(start, Children) ==> u.depth <= MAX_DEPTH
  {
    ChildrenDeepening();
    LevelsDepths(start, Children, LevelCount(start));
    var o := Order(start, Children);
    forall u | u in o ensures u.depth <= MAX_DEPTH {
      var i :| 0 <= i < |o| && o[i] == u;
    }
  }

  lemma {:induction false} FirstMatchesSkip(vs: seq<Visit>, n: nat, token: string)
    requires n <= |vs|
    requires forall j :: 0 <= j < n ==> LevelMatches(vs[j], token) == []
    ensures FirstMatches(vs, token) == FirstMatches(vs[n..], token)
    decreases n
  {
    if n > 0 {
      FirstMatchesSkip(vs[1..], n - 1, token);
      assert vs[1..][n - 1..] == vs[n..];
    }
  }

  /** The walk stops at `v`: everything before it in the order found nothing. */
  lemma FoundAt(start: Visit, order: seq<Visit>, visited: seq<Visit>, v: Visit, token: string)
    requires start.depth <= MAX_DEPTH && order == Order(start, Children)
    requires PrefixOf(visited + [v], order)
    requires forall u :: u in visited && u.depth <= MAX_DEPTH ==> LevelMatches(u, token) == []
    requires LevelMatches(v, token) != []
    ensures FirstMatches(order, token) == FinalizeMatches(LevelMatches(v, token))
  {
    OrderDepths(start);
    forall j | 0 <= j < |visited| ensures LevelMatches(order[j], token) == [] {
      assert order[j] == (visited + [v])[j] == visited[j];
      assert visited[j] in visited && order[j] in order;
    }
    FirstMatchesSkip(order, |visited|, token);
    assert order[|visited|] == (visited + [v])[|visited|];
  }

  /** The walk ran out of directories: nothing in the order found anything. */
  lemma NoneFound(start: Visit, order: seq<Visit>, token: string)
    requires start.depth <= MAX_DEPTH && order == Order(start, Children)
    requires forall u :: u in order && u.depth <= MAX_DEPTH ==> LevelMatches(u, token) == []
    ensures FirstMatches(order, token) == []
  {
    OrderDepths(start);
    forall j | 0 <= j < |order| ensures LevelMatches(order[j], token) == [] {
      assert order[j] in order;
    }
    FirstMatchesSkip(order, |order|, token);
  }

  // ----- what the walk returns -----

  /** The tier an entry's match takes when its name classifies as `kind`. */
  function DownQuality(kind: Kind): MatchQuality {
    if kind == Exact then ExactDown else PartialDown
  }

  /** The match an entry `e` of `v` gives when its name contains the token. */
  function EntryResult(v: Visit, e: Dir, token: string): DirectoryMatch {
    DirectoryMatch(v.path + [e.name], v.depth, DownQuality(Classify(e.name, token)))
  }

  /**
   * The matches among the entries `es` of `v`: one per entry whose name
   * contains the token, in entry order, at the entry's path below `v`,
   * labelled with the depth of `v`, exact when the names are equal.
   */
  lemma {:induction false} EntryMatchesShape(v: Visit, es: seq<Dir>, token: string)
    ensures forall m :: m in EntryMatches(v, es, token) ==>
      (exists e :: e in es && Classify(e.name, token) != NoMatch && m == EntryResult(v, e, token))
    ensures forall e :: e in es && Classify(e.name, token) != NoMatch ==>
      EntryResult(v, e, token) in EntryMatches(v, es, token)
    decreases |es|
  {
    if es != [] {
      var init := es[..|es| - 1];
      var last := es[|es| - 1];
      EntryMatchesShape(v, init, token);
      assert es == init + [last];
      forall m | m in EntryMatches(v, es, token)
        ensures (exists e :: e in es && Classify(e.name, token) != NoMatch && m == EntryResult(v, e, token))
      {
        if m !in EntryMatches(v, init, token) {
          assert m in EntryMatch(v, last, token);
          assert last in es;
        }
      }
    }
  }

  /** A visit finds exactly its subdirectories whose name contains the token. */
  lemma LevelMatchesShape(v: Visit, token: string)
    ensures forall m :: m in LevelMatches(v, token) ==>
      (exists e :: e in v.dir.children && Classify(e.name, token) != NoMatch && m == EntryResult(v, e, token))
    ensures forall e :: e in Entries(v.dir) && Classify(e.name, token) != NoMatch ==>
      EntryResult(v, e, token) in LevelMatches(v, token)
  {
    var es := SortedEntries(v.dir);
    EntryMatchesShape(v, es, token);
    SortedEntriesSorted(v.dir);
    forall e | e in Entries(v.dir) ensures e in es {
      assert e in multiset(Entries(v.dir));
    }
  }

  /** The index of the first visit in `vs` that finds anything, or `|vs|`. */
  function FirstProductive(vs: seq<Visit>, token: string): nat
    decreases |vs|
  {
    if vs == [] || LevelMatches(vs[0], token) != [] then 0 else 1 + FirstProductive(vs[1..], token)
  }

  lemma {:induction false} FirstProductiveSpec(vs: seq<Visit>, token: string)
    ensures FirstProductive(vs, token) <= |vs|
    ensures forall i :: 0 <= i < FirstProductive(vs, token) ==> LevelMatches(vs[i], token) == []
    ensures FirstProductive(vs, token) < |vs| ==> LevelMatches(vs[FirstProductive(vs, token)], token) != []
    decreases |vs|
  {
    if vs != [] && LevelMatches(vs[0], token) == [] {
      FirstProductiveSpec(vs[1..], token);
      forall i | 0 < i <= FirstProductive(vs[1..], token) && i < |vs| ensures vs[i] == vs[1..][i - 1] {
      }
    }
  }

  /** `FirstMatches` finalizes the matches of the first productive visit. */
  lemma {:induction false} FirstMatchesAt(vs: seq<Visit>, token: string)
    ensures FirstMatches(vs, token)
      == if FirstProductive(vs, token) < |vs| then FinalizeMatches(LevelMatches(vs[FirstProductive(vs, token)], token)) else []
    decreases |vs|
  {
    if vs != [] && LevelMatches(vs[0], token) == [] {
      FirstMatchesAt(vs[1..], token);
      if FirstProductive(vs[1..], token) < |vs[1..]| {
        assert vs[FirstProductive(vs, token)] == vs[1..][FirstProductive(vs[1..], token)];
      }
    }
  }

  lemma FinalizeNonEmpty(l: seq<DirectoryMatch>)
    requires l != []
    ensures FinalizeMatches(l) != []
  {
    assert l[0].path in PathSet(l);
  }

  /**
   * The downward walk returns the finalized matches of the first directory,
   * in breadth-first order within 8 levels below the start, that has a
   * matching subdirectory: every directory before it found nothing. It
   * returns nothing exactly when no such directory exists.
   */
  lemma DownAllFirst(root: Dir, cwd: Path, token: string)
    ensures var o := Order(StartVisit(root, cwd), Children); var n := FirstProductive(o, token);
      && n <= |o|
      && (forall i :: 0 <= i < n ==> LevelMatches(o[i], token) == [])
      && (n < |o| ==> LevelMatches(o[n], token) != [] && DownAll(root, cwd, token) == FinalizeMatches(LevelMatches(o[n], token)))
      && (DownAll(root, cwd, token) == [] <==> n == |o|)
  {
    var o := Order(StartVisit(root, cwd), Children);
    FirstProductiveSpec(o, token);
    FirstMatchesAt(o, token);
    var n := FirstProductive(o, token);
    if n < |o| {
      FinalizeNonEmpty(LevelMatches(o[n], token));
    }
  }

  /**
   * `v` is a directory the walk visits, `v.depth <= 8` levels below `cwd`,
   * and every match in `r` is a subdirectory of it named by the token.
   */
  predicate VisitFound(root: Dir, cwd: Path, token: string, v: Visit, r: seq<DirectoryMatch>) {
    && v in Order(StartVisit(root, cwd), Children) && v.depth <= MAX_DEPTH
    && |v.path| == |cwd| + v.depth && v.path[..|cwd|] == cwd
    && forall m :: m in r ==> exists e :: e in v.dir.children && Classify(e.name, token) != NoMatch && m == EntryResult(v, e, token)
  }

  /**
   * Every match the downward walk returns is a subdirectory, named by the
   * token, of one visited directory `v` that lies `v.depth <= 8` levels
   * below the start; the match is labelled with `v.depth` (so the start's
   * own children are labelled 0), and its tier is exact exactly when the
   * names are equal. All matches come from that one directory, so they
   * share one depth label, and they are in the finalizer's order.
   */
  lemma DownAllShape(root: Dir, cwd: Path, token: string)
    ensures var r := DownAll(root, cwd, token);
      r != [] ==> exists v :: VisitFound(root, cwd, token, v, r)
    ensures var r := DownAll(root, cwd, token);
      && PathsDistinct(r) && StrictlySortedBy(r, Before)
      && forall i, j :: 0 <= i < |r| && 0 <= j < |r| ==> r[i].depthFromCurrent == r[j].depthFromCurrent
  {
    var start := StartVisit(root, cwd);
    var o := Order(start, Children);
    var r := DownAll(root, cwd, token);
    DownAllFirst(root, cwd, token);
    if r != [] {
      var v := o[FirstProductive(o, token)];
      var l := LevelMatches(v, token);
      assert v in o;
      OrderUnder(start);
      LevelMatchesShape(v, token);
      FinalizedFrom(l);
      LevelDepthLabel(v, token);
      forall i, j | 0 <= i < |r| && 0 <= j < |r| ensures r[i].depthFromCurrent == r[j].depthFromCurrent {
        assert r[i] in l && r[j] in l;
      }
      assert VisitFound(root, cwd, token, v, r);
    }
  }

  /** The finalizer keeps only elements of its input. */
  lemma FinalizedFrom(l: seq<DirectoryMatch>)
    ensures forall m :: m in FinalizeMatches(l) ==> m in l
  {
    var r := FinalizeMatches(l);
    forall m | m in r ensures m in l {
      assert m in multiset(r);
    }
  }

  /** The matches of one directory are all labelled with its depth. */
  lemma LevelDepthLabel(v: Visit, token: string)
    ensures forall m :: m in LevelMatches(v, token) ==> m.depthFromCurrent == v.depth
  {
    LevelMatchesShape(v, token);
  }
}
