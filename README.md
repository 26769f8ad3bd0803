# jcd search engine, modelled in Dafny

`jcd <term>` jumps to a directory by a fuzzy term. Behind it sits one
function, `find_matching_directories` in `src/main.rs`, which turns a term and
the current directory into a ranked list of candidate directories. This
project models that search-and-ranking engine and proves what it promises.

The filesystem is an in-memory tree: a directory (`Tree.Dir`) has a name, a
readable flag and its subdirectories in `read_dir` order. An unreadable
directory lists nothing. A path is the list of its segments below `/`. The
wall clock is an oracle (`SearchBudget.Clock`): each comparison of the
elapsed time with the 500 ms ceiling is one numbered clock read, and the
clock says from which read on the ceiling is passed. Every behaviour of a
monotone clock is one such oracle.

The modules follow the engine's parts:

| module | file | models |
|---|---|---|
| `Text` | text.dfy | lower-casing, substring tests, `split('/')`, the byte-wise name and path orders |
| `Sorting` | sorting.dfy | the standard library's stable `sort_by`/`sort_by_key`, as a stable insertion sort |
| `Matches` | matches.dfy | `MatchQuality`, `DirectoryMatch`, exact/partial classification, `finalize_matches` |
| `SearchBudget` | budget.dfy | `SearchContext`: the match counter with its ceiling of 20 and the clock |
| `Tree` | tree.dfy | the directory tree, `find_search_root_and_pattern`, `get_adaptive_depth` |
| `UpWalk` | upwalk.dfy | `search_up_tree_with_priority` |
| `BreadthFirstAll` | bfsall.dfy | `search_down_breadth_first_all` |
| `DepthFirst` | downfast.dfy | `search_down_tree_fast` |
| `PatternSearch` | pattern.dfy | `search_path_pattern_fast`, `search_pattern_recursive_fast` |
| `PatternComplete` | patternfinds.dfy | what those two searches are certain to find when neither the clock nor the match ceiling stops them |
| `ScoredBreadthFirst` | bfscored.dfy | `search_breadth_first` |
| `Finder` | orchestrator.dfy | `find_matching_directories` |

Each walker that uses a budget is a method that takes the shared match list
and a `SearchContext` object (`modifies ctx`). Each is proved equal to a
specification function that threads the budget as a value:
`DownFast`, `PatternWalk`/`PathPattern`, `ScoredWalk`/`BreadthFirst`.
The walks' properties are then lemmas about those functions. The two walks
that use no budget are proved equal to clock-free definitions:
`AncestorMatches`, and `DownAll` over the breadth-first visiting order.
`find_matching_directories` is proved equal to `Finder.Find`.

Behaviour of the code that the model keeps as written:

- A plain term (no `/`) returns the ancestor matches as soon as there are
  any. They are not finalized and nothing below the current directory is
  searched (src/main.rs:234-239).
- There is no `PrefixDown` tier. `search_breadth_first` computes a prefix
  score, but it uses the score only to order a directory's matches, and it
  labels prefix matches `PartialDown` (src/main.rs:672-684).
- An empty term is special-cased only by `search_down_tree_fast`, which makes
  every entry an exact match. Everywhere else, the empty term is contained in
  every name, so every name is a partial match.
- `search_down_breadth_first_all` labels the entries of the directory
  dequeued at queue depth d with depth d. The start directory's own children
  therefore get depth 0 (src/main.rs:326).
- `search_down_breadth_first_all` stops at the first directory in
  breadth-first order whose entries match, not at the first level. Matches
  from the other directories of that level are not collected
  (src/main.rs:352-361).
- `search_down_tree_fast` ignores the match ceiling and checks only the time
  (src/main.rs:434-437). The counter may therefore pass 20.

## Model

| member | source | states |
|---|---|---|
| Text.Lower | src/main.rs:262 | lower-casing keeps the length and maps each character on its own (ASCII) |
| Text.Split | src/main.rs:484 | `split('/')` yields at least one piece, no piece holds a `/`, and it yields a single piece exactly when the term has no `/` |
| Text.JoinSplit | src/main.rs:484 | joining the pieces of `split` with the separator gives the term back |
| Text.PathOrder | src/main.rs:374 | the path comparison used by the finalizer is a strict total order |
| Text.ProperPrefixIsLess | src/main.rs:374 | an ancestor's path sorts before any of its descendants' paths |
| Sorting.SortBy | src/main.rs:374 | the library sort returns a permutation of its input |
| Sorting.SortSorted | src/main.rs:374 | the library sort orders its output by the comparator |
| Sorting.SortStable | src/main.rs:378-396 | the library sort is stable: elements the comparator ranks equal keep their input order |
| Sorting.StrictlySortedUnique | src/main.rs:372-399 | two strictly ordered permutations of the same list are equal |
| Sorting.SortKeysDistinct | src/main.rs:378-396 | sorting a list whose paths are distinct keeps them distinct |
| Matches.Classify | src/main.rs:264-278 | a name is exact exactly when its lower-cased form equals the lower-cased token; a partial name is longer than the token; a name matches at all exactly when its lower-cased form contains the lower-cased token |
| Matches.EmptyTokenClassifiesPartial | src/main.rs:264-278 | an empty token is a partial match of every non-empty name |
| Matches.BeforeAsymmetric | src/main.rs:378-396 | the finalizer's order is asymmetric |
| Matches.BeforeTransitive | src/main.rs:378-396 | the finalizer's order is transitive |
| Matches.DedupByPath | src/main.rs:375 | `dedup_by` on paths keeps a sub-multiset with the same set of paths, starting with the first element |
| Matches.DedupAscending | src/main.rs:374-375 | deduplicating a path-sorted list leaves strictly ascending paths |
| Matches.FinalizeMatches | src/main.rs:372-399 | the result has distinct paths and the input's set of paths, and it is a sub-multiset of the input; tiers ascend (ExactUp, PartialUp, ExactDown, PartialDown); depths descend within an Up tier and ascend within a Down tier; remaining ties ascend by path |
| Matches.FinalizeOfOrdered | src/main.rs:372-399 | a list with distinct paths already in the finalizer's order is its own finalization |
| Matches.FinalizeIdempotent | src/main.rs:372-399 | finalizing twice gives the same result as finalizing once |
| SearchBudget.TimeUpAt | src/main.rs:435 | one clock comparison counts one read, and a clock that never expires never reports the time as spent |
| SearchBudget.ShouldContinueAt | src/main.rs:49-51 | `should_continue` is false at or above the ceiling whatever the clock says, and then it reads no clock; a true answer implies room under the ceiling; with a clock that never expires it is exactly "under the ceiling" |
| SearchBudget.AddMatchTo | src/main.rs:53-55 | `add_match` raises the counter by exactly one and leaves the rest unchanged |
| SearchBudget.StopIsFinal | src/main.rs:49-51 | once `should_continue` has said stop, it says stop at every later budget |
| SearchBudget.SearchContext.constructor | src/main.rs:40-47 | a new context has no matches and a ceiling of 20 |
| SearchBudget.SearchContext.ShouldContinue | src/main.rs:49-51 | the method answers as `ShouldContinueAt` and is false whenever the counter is at the ceiling |
| SearchBudget.SearchContext.TimeUp | src/main.rs:435 | the method answers as `TimeUpAt` |
| SearchBudget.SearchContext.AddMatch | src/main.rs:53-55 | the counter goes up by one, and nothing else changes |
| Tree.Entries | src/main.rs:307 | `read_dir` lists only subdirectories of the directory |
| Tree.SortedEntriesSorted | src/main.rs:309-310 | sorted entries are the same entries, ordered by name |
| Tree.DescentLookup | src/main.rs:199 | in a well-formed tree (normal names, no two siblings with one name) the path of a chain of listings names the directory the chain ends at, so the walks, which follow listings, and path lookups agree |
| Tree.PathOfToken | src/main.rs:197 | a token's path has only non-empty segments without `/` |
| Tree.TrimLeadingSlashes | src/main.rs:627 | `trim_start_matches('/')` leaves a suffix that does not start with `/` |
| Tree.NearestExisting | src/main.rs:607-619 | walking up from a prefix finds an existing directory that is a prefix of the path, with no existing directory strictly between it and the start, and returns the next component as the pattern |
| Tree.FindSearchRootAndPattern | src/main.rs:602-629 | the result is the nearest existing proper ancestor of the path, together with the first component after it |
| Tree.AdaptiveDepth | src/main.rs:401-419 | 4 for up to 10 subdirectories, 3 for 11 to 30, 2 above 30, and 3 when the directory cannot be read; always 2, 3 or 4 |
| UpWalk.SearchUpTree | src/main.rs:251-288 | the loop returns `AncestorMatches`: exact ancestor matches, nearest first, then partial ancestor matches, nearest first |
| UpWalk.AboveShape | src/main.rs:259-282 | each tier holds only ancestors of its kind, and their paths get strictly shorter along the tier |
| UpWalk.AboveComplete | src/main.rs:259-282 | every ancestor of the tier's kind is in the tier, with depth equal to its distance below the current directory, negated |
| UpWalk.AncestorMatchesSound | src/main.rs:251-288 | every result is a proper ancestor other than `/`, at depth between -(length of cwd)+1 and -1; it is an Up match and its lower-cased name contains the lower-cased token; it is ExactUp exactly when its name equals the token and PartialUp exactly when it only contains the token |
| UpWalk.AncestorMatchesComplete | src/main.rs:251-288 | every proper ancestor (not `/`) whose name contains the token is in the result |
| UpWalk.AncestorMatchesFinalized | src/main.rs:284-287 | the result has distinct paths, is already in finalized order, and puts every ExactUp before every PartialUp |
| UpWalk.EmptyTokenReturnsAllAncestors | src/main.rs:257-278 | an empty token returns every proper ancestor except `/`, all PartialUp |
| UpWalk.NoExactForEmpty | src/main.rs:264-270 | an empty token yields no exact ancestor |
| UpWalk.AllPartialForEmpty | src/main.rs:271-277 | an empty token yields one partial match per ancestor |
| BreadthFirstAll.SearchDownBreadthFirstAll | src/main.rs:290-370 | the method returns `DownAll`: the finalized matches of the first productive directory in breadth-first order, or nothing |
| BreadthFirstAll.Walk | src/main.rs:293-369 | the queue loop returns the matches of the first directory of the breadth-first order whose entries match |
| BreadthFirstAll.ScanDirectory | src/main.rs:311-346 | given the directory's entries in name order, the entry loop collects exactly the entries whose names match the token, exact or partial, in that order, and queues every entry, in the same order, one level deeper unless the directory is at depth 8 |
| BreadthFirstAll.ChildVisitsDeeper | src/main.rs:338-341 | a queued subdirectory is one of the directory's entries, one level deeper than the directory, and its path is the directory's path extended by its name |
| BreadthFirstAll.OrderUnder | src/main.rs:295-366 | every directory visited lies below the start, at depth at most 8 and at its distance from the start |
| BreadthFirstAll.OrderDepths | src/main.rs:297-302 | no directory deeper than queue depth 8 is visited |
| BreadthFirstAll.LevelMatchesShape | src/main.rs:307-346 | a directory's matches are exactly its matching subdirectories, labelled with its depth |
| BreadthFirstAll.FirstProductiveSpec | src/main.rs:348-361 | the first productive position has no productive directory before it |
| BreadthFirstAll.DownAllFirst | src/main.rs:348-369 | the result is the finalized matches of the first productive directory in breadth-first order, and it is empty exactly when no directory is productive |
| BreadthFirstAll.DownAllShape | src/main.rs:348-369 | a non-empty result comes from one visited directory; the result has distinct paths, is in finalized order, and has a single depth |
| DepthFirst.SearchDownTreeFast | src/main.rs:422-476 | the recursive walk appends what `DownFast` finds and ends with its budget |
| DepthFirst.SearchBelow | src/main.rs:467-470 | the descent into one entry appends what `DescendFast` finds: the entry's subtree while within the depth limit and the clock, nothing otherwise |
| DepthFirst.DownFastCounts | src/main.rs:459-464 | the walk counts one match per match it appends and only adds clock reads |
| DepthFirst.DownFastPlaced | src/main.rs:430-470 | every match lies below the start, at a depth within the limit and at its distance from the start; it matches the term and has the walk's quality |
| DepthFirst.DownFastComplete | src/main.rs:434-470 | with a clock that never expires, the walk finds exactly the clock-free pre-order walk `Below` |
| DepthFirst.BelowFinds | src/main.rs:443-470 | every subdirectory reached from the start by a chain of n listings, 1 ≤ n ≤ maxDepth − depth + 1, whose name contains the term, is in the clock-free walk with depth depth + n − 1 and the path of that chain |
| DepthFirst.DownFastFinds | src/main.rs:434-470 | with a clock that never expires, the walk itself finds every such subdirectory |
| DepthFirst.DownFastInTree | src/main.rs:439-470 | whatever the clock does, every match names a directory reached from the start by a chain of listings, along the match's path below the start |
| DepthFirst.EmptyTermIsExact | src/main.rs:452-457 | with an empty term every match is ExactDown |
| DepthFirst.EmptyTermFindsChildren | src/main.rs:443-465 | with an empty term and time to spare, every subdirectory of the start is found |
| PatternSearch.SearchPatternRecursiveFast | src/main.rs:532-600 | the recursive walk appends what `PatternWalk` finds and ends with its budget |
| PatternSearch.MatchEntry | src/main.rs:556-581 | an entry whose name contains the pattern is recorded, counted, with its tier, when it is the last pattern, and otherwise searched below for the next pattern, as `PatternHere` says |
| PatternSearch.DescendEntry | src/main.rs:583-594 | the same pattern is searched one level below every entry while the budget allows, as `PatternDeeper` says |
| PatternSearch.SearchPathPatternFast | src/main.rs:478-530 | the walk down from the current directory, then up at most 10 ancestors, appends what `PathPattern` finds |
| PatternSearch.PatternWalkCounted | src/main.rs:541-594 | the recursive walk counts each match and never passes the ceiling |
| PatternSearch.UpPatternCounted | src/main.rs:496-529 | the upward loop counts each match and never passes the ceiling |
| PatternSearch.PathPatternCounted | src/main.rs:478-530 | the whole pattern search counts each match it appends and appends at most the room left under the ceiling |
| PatternSearch.PatternWalkFound | src/main.rs:545-598 | every match of the recursive walk lies below the directory searched, within the depth limit, as many levels down as its depth label says; along its path below that directory the pattern components are matched in order at strictly increasing positions (`Chain`), the last by the match itself; its tier is exact exactly when its name equals the last component |
| PatternSearch.HitsIndex | src/main.rs:555 | in a chain, the directory at the k-th position has a name that contains the k-th component |
| PatternSearch.PatternWalkInTree | src/main.rs:545-598 | every match of the recursive walk names a directory reached from the directory searched by a chain of listings, along the match's path |
| PatternSearch.UpPatternFound | src/main.rs:500-529 | every match of the upward loop starts with one of the 10 nearest named proper ancestors, whose name contains the first component; the later components are matched in order below it along the match's path, the last by the match itself |
| PatternSearch.PathPatternFound | src/main.rs:478-530 | every match is labelled with its distance from the current directory, between 10 levels up and 3 levels down; its name contains the last component; it is an Up match exactly when its label is not positive; and the components are matched in order along its path, starting either at one of the 10 nearest named ancestors or strictly below the current directory |
| PatternComplete.PatternWalkAll | src/main.rs:532-600 | with a clock that never expires, a recursive walk that ends under the match ceiling was never stopped by a budget check: it reports exactly the budget-free walk `PatternAll` |
| PatternComplete.PatternAllFinds | src/main.rs:545-598 | every directory reached from the directory searched by a chain of listings within the depth limit, along whose path below it the components can be matched in order at strictly increasing positions (the last by the directory itself), is reported with its depth label and tier |
| PatternComplete.PatternWalkFinds | src/main.rs:545-598 | with a clock that never expires and the walk ending under the ceiling, the recursive walk itself reports every such directory |
| PatternComplete.UpHereFinds | src/main.rs:505-521 | an ancestor whose name contains the first component is reported (ExactUp when the names are equal, PartialUp otherwise) when that component is the only one; otherwise every directory up to 3 levels below it that completes the chain of the later components is reported |
| PatternComplete.UpPatternFinds | src/main.rs:496-529 | with a clock that never expires and room under the ceiling, the upward loop reaches each of the 10 nearest named proper ancestors and reports what `UpHereFinds` says for it |
| PatternComplete.PathPatternFindsBelow | src/main.rs:484-494 | with a clock that never expires and room under the ceiling, every directory up to 3 levels below the current directory along whose path the components are matched in order is a result |
| PatternComplete.PathPatternFindsAbove | src/main.rs:484-529 | with a clock that never expires and room under the ceiling, each of the 10 nearest named proper ancestors whose name contains the first component contributes what `UpHereFinds` says |
| ScoredBreadthFirst.SearchBreadthFirst | src/main.rs:631-720 | the queue loop appends what `BreadthFirst` finds and ends with its budget |
| ScoredBreadthFirst.ScanLevel | src/main.rs:652-700 | the entry loop collects what `ScanEntries` specifies |
| ScoredBreadthFirst.ScanEntry | src/main.rs:659-696 | the four-way test, the score and the tier of one entry give exactly `EntryHit` (recorded at the directory's depth, at its path extended by the name, when the name matches), and the queueing gives `EntrySubdir` (one level deeper, only below the depth limit) |
| ScoredBreadthFirst.EmitLevel | src/main.rs:703-710 | the level loop appends what `Emit` specifies |
| ScoredBreadthFirst.EnqueueLevel | src/main.rs:713-717 | the queueing loop queues what `Enqueue` specifies |
| ScoredBreadthFirst.ScoredHitIsContains | src/main.rs:666-669 | the four-way `is_match` test is the plain substring test |
| ScoredBreadthFirst.ScanFacts | src/main.rs:652-700 | the scan counts nothing and records only matching names, one level below the directory and scored by name; the quality is ExactDown only for score 0; only subdirectories above the depth limit are queued, one level deeper |
| ScoredBreadthFirst.ScanComplete | src/main.rs:652-700 | with a clock that never expires and room under the ceiling, the scan records every matching entry and every subdirectory |
| ScoredBreadthFirst.EmitFacts | src/main.rs:703-710 | the level loop appends a prefix of the sorted matches, counts each one, and never passes the ceiling |
| ScoredBreadthFirst.EmitComplete | src/main.rs:703-710 | with a clock that never expires, the level loop stops exactly when the ceiling is reached |
| ScoredBreadthFirst.EnqueueFacts | src/main.rs:713-717 | the queueing loop counts nothing and queues a subsequence of the subdirectories |
| ScoredBreadthFirst.EnqueueComplete | src/main.rs:713-717 | with a clock that never expires and room under the ceiling, every subdirectory is queued |
| ScoredBreadthFirst.LevelSorted | src/main.rs:703 | `sort_by_key` puts exact matches first, then prefix matches, then other substring matches, and keeps every match |
| ScoredBreadthFirst.VisitScoredCounted | src/main.rs:643-719 | one dequeued directory counts each match it appends and never passes the ceiling |
| ScoredBreadthFirst.VisitScoredQueued | src/main.rs:643-719 | one dequeued directory queues only subdirectories from its own listing, one level deeper, within the depth limit, at its path extended by their names |
| ScoredBreadthFirst.VisitScoredFound | src/main.rs:643-719 | one dequeued directory appends only matching names from its own listing, at its path extended by that name, labelled with its depth, within the depth limit, in score order |
| ScoredBreadthFirst.VisitInTree | src/main.rs:652-717 | a dequeued directory on a chain of listings from the root queues only directories on such chains and appends only matches whose paths continue such a chain |
| ScoredBreadthFirst.ScoredWalkInTree | src/main.rs:641-719 | when every queued directory is reached from the root by a chain of listings, so is every match the walk appends |
| ScoredBreadthFirst.ScoredWalkCounted | src/main.rs:643-719 | the walk counts each match and never passes the ceiling |
| ScoredBreadthFirst.ScoredWalkBlocks | src/main.rs:643-719 | the walk's matches are blocks, one per directory, each ordered exact, then prefix, then substring, and each match lies below the root within the depth limit |
| ScoredBreadthFirst.ScoredWalkShallowFirst | src/main.rs:641-719 | the walk appends matches in non-decreasing depth, so shallower matches come first |
| ScoredBreadthFirst.BreadthFirstShape | src/main.rs:631-720 | from the root, the walk's matches are per-directory score-ordered blocks, in non-decreasing depth, placed below the root within the depth limit, reached from the root by a chain of listings, counted, and never past the ceiling |
| Finder.FindMatchingDirectories | src/main.rs:192-249 | the method returns `Find`: absolute, then slash pattern, then ancestors, then the breadth-first search below |
| Finder.FindFinalized | src/main.rs:192-249 | every answer has distinct paths, is in finalized order, and is its own finalization |
| Finder.ExistingAbsoluteFirst | src/main.rs:196-210 | an absolute term naming a directory puts that directory first, at depth 0 and ExactDown |
| Finder.HeadsFinalized | src/main.rs:199-219 | a depth-0 exact candidate heads the finalized list when the other candidates are exact, deeper and on longer paths |
| Finder.TopKept | src/main.rs:199-219 | the depth-0 candidate survives finalization and appears once |
| Finder.MissingAbsoluteFound | src/main.rs:211-218 | an absolute term naming nothing yields only subdirectories of its nearest existing ancestor, within three levels, that match its first missing component and are reached from that ancestor by a chain of listings |
| Finder.PatternAnswers | src/main.rs:222-229 | a productive relative path pattern answers with its own finalized matches; each ends in a name that matches the last component, and the components are matched in order along its path from a near ancestor or from the current directory down |
| Finder.PlainTermAnswers | src/main.rs:231-248 | a plain term answers with the ancestor matches if there are any, otherwise with `DownAll`; the answer is empty only when both are |
| Finder.AncestorsOnly | src/main.rs:234-239 | when an ancestor matches a plain term, every answer is a proper ancestor of the current directory |

## Left out

- `main`, `search_with_progress` and `show_busy_indicator` (src/main.rs:58-190) are not part of this model. They handle argument parsing, output, threads and the busy indicator.
- The real filesystem is replaced by the `Dir` tree. This leaves out `metadata` failures, files (only directories are listed), symbolic links, and `..`/`.` resolution beyond dropping empty and `.` segments.
- Names are compared after ASCII lower-casing only. Unicode `to_lowercase` and `to_string_lossy` are not modelled.
- The clock is an oracle over clock reads. The boundary instant where the elapsed time equals the ceiling exactly is not distinguished between `<` (src/main.rs:50), `>` (src/main.rs:435) and `<=` (src/main.rs:468).
- Tree.FindSearchRootAndPattern: the fallback after the loop (src/main.rs:621-628) is modelled only for a token whose path has no component. There it returns `/` and the token without leading slashes. For any other token, the loop reaches `/`, which always exists (`Tree.NearestExisting` ensures the directory it returns exists). The result is a pair, not an `Option`, because it is always `Some`.
- Matches.FinalizeMatches: the in-place `sort_by` and `dedup_by` on the vector are modelled on sequences. Which of two equal-path entries survives is fixed by the stable sort, as in the source, but no lemma names it.
- The `parts.is_empty()` test in `search_path_pattern_fast` (src/main.rs:485) can never be true, since `split` always yields a piece. Only the `should_continue` half of that test is modelled.
- The `_ => 1` arm of `get_adaptive_depth` (src/main.rs:414) can never be reached, because the count is capped at 50. `Tree.AdaptiveDepth` proves the result is always 2, 3 or 4.
- The walks are stated for any `Dir` tree, including trees no filesystem has: siblings that share a name, and names that are empty, `.`, `..` or contain `/`. Path lookup (`Tree.Child`) takes the first sibling with a name. `Tree.WellFormed` excludes such trees, and `Tree.DescentLookup` proves that on a well-formed tree lookups and the walks agree. The other lemmas do not need it.
- Integer widths (`usize`, `i32`) are modelled as unbounded integers. Depths stay within a few levels, so no wrap-around can occur.
