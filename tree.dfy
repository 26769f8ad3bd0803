/**
 * The filesystem as an in-memory directory tree, and the pure path logic
 * that sits on it: turning an absolute token into a path, finding the
 * nearest existing ancestor of a path (`find_search_root_and_pattern`) and
 * sizing a downward search (`get_adaptive_depth`).
 *
 * A directory lists only its subdirectories (the walkers ignore everything
 * else), in the order `read_dir` yields them. An unreadable directory lists
 * nothing: every walker skips a directory whose listing fails.
 */
module Tree {
  import opened Text
  import opened Sorting

  datatype Dir = Dir(name: string, readable: bool, children: seq<Dir>)

  /** What `read_dir` yields: the subdirectories, or nothing when the listing fails. */
  function Entries(d: Dir): (es: seq<Dir>)
    ensures forall e :: e in es ==> e in d.children
  {
    if d.readable then d.children else []
  }

  /** `a.file_name() <= b.file_name()` */
  predicate NameLe(a: Dir, b: Dir) {
    !NameLess(b.name, a.name)
  }

  lemma NameLeTotalPreorder()
    ensures TotalPreorder(NameLe)
  {
    NameOrder();
  }

  /** The listing sorted by file name (the stable `sort_by` on `file_name`). */
  function SortedEntries(d: Dir): seq<Dir> {
    SortBy(Entries(d), NameLe)
  }

  /** The sorted listing holds the same subdirectories, in name order. */
  lemma SortedEntriesSorted(d: Dir)
    ensures multiset(SortedEntries(d)) == multiset(Entries(d))
    ensures SortedBy(SortedEntries(d), NameLe)
    ensures forall e :: e in SortedEntries(d) ==> e in d.children
  {
    NameLeTotalPreorder();
    SortSorted(Entries(d), NameLe);
    forall e | e in SortedEntries(d) ensures e in d.children {
      assert e in multiset(SortedEntries(d));
    }
  }

  // ----- sizes, for termination of the queue-based walkers -----

  function SizeOf(d: Dir): nat
    decreases d
  {
    1 + SizesOf(d.children)
  }

  function SizesOf(ds: seq<Dir>): nat
    decreases ds
  {
    if ds == [] then 0 else SizeOf(ds[0]) + SizesOf(ds[1..])
  }

  lemma {:induction false} SizesOfAppend(a: seq<Dir>, b: seq<Dir>)
    ensures SizesOf(a + b) == SizesOf(a) + SizesOf(b)
    decreases |a|
  {
    if a != [] {
      assert (a + b)[0] == a[0];
      assert (a + b)[1..] == a[1..] + b;
      SizesOfAppend(a[1..], b);
    } else {
      assert a + b == b;
    }
  }

  // ----- descending the tree -----

  /** The names of a sequence of directories. */
  function Names(ds: seq<Dir>): (p: Path)
    ensures |p| == |ds| && forall i :: 0 <= i < |ds| ==> p[i] == ds[i].name
  {
    seq(|ds|, i requires 0 <= i < |ds| => ds[i].name)
  }

  /** `ds` goes down the tree from `d`: each directory is listed by the one before it, the first by `d`. */
  predicate Descent(d: Dir, ds: seq<Dir>) {
    && (ds != [] ==> ds[0] in Entries(d))
    && forall i :: 0 < i < |ds| ==> ds[i] in Entries(ds[i - 1])
  }

  /** Where a descent from `d` ends. */
  function Bottom(d: Dir, ds: seq<Dir>): Dir {
    if ds == [] then d else ds[|ds| - 1]
  }

  /** Following listed subdirectories named `names`, in turn, leads from `d` to `t`. */
  ghost predicate Reaches(d: Dir, names: Path, t: Dir) {
    exists ds :: Descent(d, ds) && Names(ds) == names && Bottom(d, ds) == t
  }

  /** `names` leads from `d` to some existing directory. */
  ghost predicate Reachable(d: Dir, names: Path) {
    exists ds :: Descent(d, ds) && Names(ds) == names
  }

  lemma ReachesSelf(d: Dir)
    ensures Reaches(d, [], d)
  {
    assert Descent(d, []) && Names([]) == [] && Bottom(d, []) == d;
  }

  /** A listed subdirectory of a reached directory is reached one name further, and that path is reachable. */
  lemma ReachesEntry(d: Dir, names: Path, t: Dir, e: Dir)
    requires Reaches(d, names, t) && e in Entries(t)
    ensures Reaches(d, names + [e.name], e) && Reachable(d, names + [e.name])
  {
    var ds :| Descent(d, ds) && Names(ds) == names && Bottom(d, ds) == t;
    var ds' := ds + [e];
    assert Descent(d, ds') by {
      forall i | 0 < i < |ds'| ensures ds'[i] in Entries(ds'[i - 1]) {
        if i < |ds| {
          assert ds'[i] == ds[i] && ds'[i - 1] == ds[i - 1];
        }
      }
    }
    assert Names(ds') == names + [e.name];
    assert Bottom(d, ds') == e;
  }

  /** A listed name below a reached directory is reachable. */
  lemma ReachesListed(d: Dir, names: Path, t: Dir, n: string)
    requires Reaches(d, names, t) && n in Names(Entries(t))
    ensures Reachable(d, names + [n])
  {
    var es := Entries(t);
    var k :| 0 <= k < |es| && Names(es)[k] == n;
    ReachesEntry(d, names, t, es[k]);
  }

  /** A descent from a listed subdirectory `e` of `d` is a descent from `d` through `e`. */
  lemma ReachableThrough(d: Dir, e: Dir, names: Path)
    requires e in Entries(d) && Reachable(e, names)
    ensures Reachable(d, [e.name] + names)
  {
    var ds :| Descent(e, ds) && Names(ds) == names;
    var ds' := [e] + ds;
    assert Descent(d, ds') by {
      forall i | 0 < i < |ds'| ensures ds'[i] in Entries(ds'[i - 1]) {
        if i > 1 {
          assert ds'[i] == ds[i - 1] && ds'[i - 1] == ds[i - 2];
        }
      }
    }
    assert Names(ds') == [e.name] + names;
  }

  /** The name of a listed subdirectory is among the listed names. */
  lemma NameListed(es: seq<Dir>, e: Dir)
    requires e in es
    ensures e.name in Names(es)
  {
    var k :| 0 <= k < |es| && es[k] == e;
    assert Names(es)[k] == e.name;
  }

  // ----- paths on the tree -----

  /** The first child with the given name. */
  function Child(cs: seq<Dir>, name: string): (r: Option<Dir>)
    ensures r.Some? ==> r.value in cs && r.value.name == name
    ensures r.None? ==> forall c :: c in cs ==> c.name != name
  {
    if cs == [] then None
    else if cs[0].name == name then Some(cs[0])
    else Child(cs[1..], name)
  }

  datatype Option<T> = None | Some(value: T)

  /** The directory an absolute path names, if any. */
  function Lookup(root: Dir, p: Path): Option<Dir>
    decreases |p|
  {
    if p == [] then Some(root)
    else
      match Child(root.children, p[0])
      case None => None
      case Some(c) => Lookup(c, p[1..])
  }

  /** `path.exists() && path.is_dir()` */
  predicate IsDirectory(root: Dir, p: Path) {
    Lookup(root, p).Some?
  }

  /** The directory at `p`; a path that names nothing reads as a directory whose listing fails. */
  function DirAt(root: Dir, p: Path): (d: Dir)
    ensures !IsDirectory(root, p) ==> Entries(d) == []
  {
    match Lookup(root, p)
    case Some(d) => d
    case None => Dir(if p == [] then "" else p[|p| - 1], false, [])
  }

  /**
   * A tree a real filesystem can have: every name is a single normal
   * component (not empty, not `.` or `..`, no `/`), and no two
   * subdirectories of one directory share a name.
   */
  predicate WellFormed(d: Dir)
    decreases d
  {
    && (forall c :: c in d.children ==> NormalName(c.name) && WellFormed(c))
    && (forall i, j :: 0 <= i < j < |d.children| ==> d.children[i].name != d.children[j].name)
  }

  predicate NormalName(n: string) {
    n != "" && n != "." && n != ".." && '/' !in n
  }

  /** Among siblings with distinct names, the first child with a name is the only one. */
  lemma {:induction false} ChildUnique(cs: seq<Dir>, c: Dir)
    requires c in cs
    requires forall i, j :: 0 <= i < j < |cs| ==> cs[i].name != cs[j].name
    ensures Child(cs, c.name) == Some(c)
    decreases |cs|
  {
    if cs[0] != c {
      assert cs[0].name != c.name by {
        var k :| 0 <= k < |cs| && cs[k] == c;
      }
      ChildUnique(cs[1..], c);
    }
  }

  /**
   * In a well-formed tree the path of a descent names the directory the
   * descent ends at: the walks, which follow listings, and `DirAt`, which
   * looks paths up, agree.
   */
  lemma {:induction false} DescentLookup(d: Dir, ds: seq<Dir>)
    requires WellFormed(d) && Descent(d, ds)
    ensures Lookup(d, Names(ds)) == Some(Bottom(d, ds))
    ensures DirAt(d, Names(ds)) == Bottom(d, ds)
    decreases |ds|
  {
    if ds != [] {
      var e := ds[0];
      ChildUnique(d.children, e);
      assert Descent(e, ds[1..]) by {
        forall i | 0 < i < |ds[1..]| ensures ds[1..][i] in Entries(ds[1..][i - 1]) {
          assert ds[1..][i] == ds[i + 1] && ds[1..][i - 1] == ds[i];
        }
      }
      DescentLookup(e, ds[1..]);
      assert Names(ds)[1..] == Names(ds[1..]);
      assert Bottom(e, ds[1..]) == Bottom(d, ds);
    }
  }

  // ----- absolute tokens -----

  /** The normal components of a slash-separated token: empty pieces and `.` drop out. */
  function Components(parts: seq<string>): (p: Path)
    ensures forall i :: 0 <= i < |p| ==> p[i] != "" && p[i] != "." && p[i] in parts
    ensures |p| <= |parts|
  {
    if parts == [] then []
    else if parts[0] == "" || parts[0] == "." then Components(parts[1..])
    else [parts[0]] + Components(parts[1..])
  }

  /** `Path::new(token)` for a token that starts with `/`, as its segment list. */
  function PathOfToken(token: string): (p: Path)
    ensures forall i :: 0 <= i < |p| ==> p[i] != "" && '/' !in p[i]
  {
    Components(Split(token, '/'))
  }

  function TrimLeadingSlashes(s: string): (r: string)
    ensures r == [] || r[0] != '/'
    ensures |r| <= |s| && r == s[|s| - |r|..]
  {
    if s != [] && s[0] == '/' then TrimLeadingSlashes(s[1..]) else s
  }

  /** Checks the proper ancestors `p[..k]`, `p[..k-1]`, ..., `/` of `p`, nearest first. */
  function NearestExisting(root: Dir, p: Path, k: nat): (r: (Path, string))
    requires k < |p|
    ensures |r.0| <= k && r.0 == p[..|r.0|] && r.1 == p[|r.0|]
    ensures IsDirectory(root, r.0)
    ensures forall j :: |r.0| < j <= k ==> !IsDirectory(root, p[..j])
    decreases k
  {
    if k == 0 then
      // `/` always exists
      assert IsDirectory(root, []);
      ([], p[0])
    else if IsDirectory(root, p[..k]) then (p[..k], p[k])
    else NearestExisting(root, p, k - 1)
  }

  /**
   * `find_search_root_and_pattern`: the nearest existing proper ancestor of
   * the token's path and the component right below it. A token naming `/`
   * itself has no parent and falls back to `/` and the token without its
   * leading slashes.
   */
  function FindSearchRootAndPattern(root: Dir, token: string): (r: (Path, string))
    ensures var p := PathOfToken(token);
      p != [] ==>
        && |r.0| < |p| && r.0 == p[..|r.0|] && r.1 == p[|r.0|]
        && IsDirectory(root, r.0)
        && forall j :: |r.0| < j < |p| ==> !IsDirectory(root, p[..j])
    ensures PathOfToken(token) == [] ==> r == ([], TrimLeadingSlashes(token))
  {
    var p := PathOfToken(token);
    if p == [] then ([], TrimLeadingSlashes(token))
    else NearestExisting(root, p, |p| - 1)
  }

  // ----- get_adaptive_depth -----

  const COUNT_CAP: nat := 50

  /** The range match on the (capped) number of subdirectories. */
  function DepthForCount(count: nat): nat {
    if count <= 10 then 4
    else if count <= 30 then 3
    else if count <= 50 then 2
    else 1
  }

  /**
   * `get_adaptive_depth`: the subdirectories are counted up to 50, and the
   * count picks the depth; an unreadable directory gets 3. The cap makes the
   * last arm (depth 1) unreachable.
   */
  function AdaptiveDepth(d: Dir): (depth: nat)
    ensures 2 <= depth <= 4
    ensures !d.readable ==> depth == 3
    ensures d.readable && |d.children| <= 10 ==> depth == 4
    ensures d.readable && 10 < |d.children| <= 30 ==> depth == 3
    ensures d.readable && 30 < |d.children| ==> depth == 2
  {
    if d.readable then
      var count := if |d.children| < COUNT_CAP then |d.children| else COUNT_CAP;
      DepthForCount(count)
    else 3
  }
}
