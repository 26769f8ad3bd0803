/**
 * `search_up_tree_with_priority`: the walk from the start directory to the
 * root that collects the ancestors whose name matches the token, exact
 * matches first, then partial ones, each group nearest ancestor first.
 *
 * The start directory `cwd` is an absolute path; its ancestor `cwd[..j]`
 * (for `1 <= j < |cwd|`) has name `cwd[j - 1]` and distance `j - |cwd|`.
 * The root has no name and is never a candidate.
 */
module UpWalk {
  import opened Text
  import opened Sorting
  import opened Matches

  function UpQuality(kind: Kind): MatchQuality {
    if kind == Exact then ExactUp else PartialUp
  }

  /**
   * The candidates of one tier among the ancestors `cwd[..j]` with
   * `1 <= j < k`, nearest first: those whose name classifies as `kind`.
   */
  function Above(cwd: Path, token: string, kind: Kind, k: nat): seq<DirectoryMatch>
    requires k <= |cwd|
    decreases k
  {
    if k <= 1 then []
    else
      var j := k - 1;
      var here := if Classify(cwd[j - 1], token) == kind
        then [DirectoryMatch(cwd[..j], j - |cwd|, UpQuality(kind))] else [];
      here + Above(cwd, token, kind, k - 1)
  }

  /** What the upward walk returns: the exact tier, then the partial tier. */
  function AncestorMatches(cwd: Path, token: string): seq<DirectoryMatch> {
    Above(cwd, token, Exact, |cwd|) + Above(cwd, token, Partial, |cwd|)
  }

  /**
   * The walk itself: `current` is `cwd[..k]`, its parent `cwd[..k - 1]`,
   * and `depth` the parent's distance.
   */
  method SearchUpTree(cwd: Path, token: string) returns (result: seq<DirectoryMatch>)
    ensures result == AncestorMatches(cwd, token)
  {
    var exact: seq<DirectoryMatch> := [];
    var partial: seq<DirectoryMatch> := [];
    var k := |cwd|;
    var depth := -1;
    var tokenLower := Lower(token);
    while k > 0
      invariant 0 <= k <= |cwd|
      invariant depth == k - 1 - |cwd|
      invariant exact + Above(cwd, token, Exact, k) == Above(cwd, token, Exact, |cwd|)
      invariant partial + Above(cwd, token, Partial, k) == Above(cwd, token, Partial, |cwd|)
      decreases k
    {
      var parent := cwd[..k - 1];
      if |parent| > 0 {
        var nameLower := Lower(parent[|parent| - 1]);
        UpStep(cwd, token, k, exact, partial, nameLower, tokenLower);
        if nameLower == tokenLower {
          exact := exact + [DirectoryMatch(parent, depth, ExactUp)];
        } else if Contains(nameLower, tokenLower) {
          partial := partial + [DirectoryMatch(parent, depth, PartialUp)];
        }
      }
      k := k - 1;
      depth := depth - 1;
    }
    result := exact + partial;
  }

  /** One step of the walk: the tier below `cwd[..k]` is the parent's contribution, then the rest. */
  lemma AboveStep(cwd: Path, token: string, kind: Kind, k: nat)
    requires 2 <= k <= |cwd|
    ensures Above(cwd, token, kind, k)
      == (if Classify(cwd[k - 2], token) == kind
          then [DirectoryMatch(cwd[..k - 1], k - 1 - |cwd|, UpQuality(kind))] else [])
         + Above(cwd, token, kind, k - 1)
  {
  }

  /** One round of the walk, in the terms the loop tests: the parent's lower-cased name against the token's. */
  lemma UpStep(cwd: Path, token: string, k: nat, exact: seq<DirectoryMatch>, partial: seq<DirectoryMatch>,
               name: string, t: string)
    requires 2 <= k <= |cwd|
    requires name == Lower(cwd[..k - 1][k - 2]) && t == Lower(token)
    ensures var m := DirectoryMatch(cwd[..k - 1], k - 1 - |cwd|, if name == t then ExactUp else PartialUp);
      && exact + Above(cwd, token, Exact, k)
        == (if name == t then exact + [m] else exact) + Above(cwd, token, Exact, k - 1)
      && partial + Above(cwd, token, Partial, k)
        == (if name != t && Contains(name, t) then partial + [m] else partial) + Above(cwd, token, Partial, k - 1)
  {
    assert cwd[..k - 1][k - 2] == cwd[k - 2];
    AboveStep(cwd, token, Exact, k);
    AboveStep(cwd, token, Partial, k);
  }

  /** A candidate of the tier `kind` taken from the ancestors above `cwd[..k]`. */
  predicate TierMember(cwd: Path, token: string, kind: Kind, k: nat, m: DirectoryMatch) {
    && 1 <= |m.path| < k <= |cwd|
    && m.path == cwd[..|m.path|]
    && m.depthFromCurrent == |m.path| - |cwd|
    && m.matchQuality == UpQuality(kind)
    && Classify(cwd[|m.path| - 1], token) == kind
  }

  /** What each candidate of a tier is, and their order: strictly nearer first. */
  lemma AboveShape(cwd: Path, token: string, kind: Kind, k: nat)
    requires k <= |cwd|
    ensures forall i :: 0 <= i < |Above(cwd, token, kind, k)| ==>
      TierMember(cwd, token, kind, k, Above(cwd, token, kind, k)[i])
    ensures forall i, j :: 0 <= i < j < |Above(cwd, token, kind, k)| ==>
      |Above(cwd, token, kind, k)[i].path| > |Above(cwd, token, kind, k)[j].path|
  {
    AboveMembers(cwd, token, kind, k);
    AboveOrder(cwd, token, kind, k);
    var r := Above(cwd, token, kind, k);
    forall i | 0 <= i < |r| ensures TierMember(cwd, token, kind, k, r[i]) {
      assert r[i] in r;
    }
  }

  lemma {:induction false} AboveMembers(cwd: Path, token: string, kind: Kind, k: nat)
    requires k <= |cwd|
    ensures forall m :: m in Above(cwd, token, kind, k) ==> TierMember(cwd, token, kind, k, m)
    decreases k
  {
    if k > 1 {
      AboveMembers(cwd, token, kind, k - 1);
      AboveStep(cwd, token, kind, k);
      var rest := Above(cwd, token, kind, k - 1);
      forall m | m in Above(cwd, token, kind, k) ensures TierMember(cwd, token, kind, k, m) {
        if m in rest {
          assert TierMember(cwd, token, kind, k - 1, m);
        } else {
          ParentMember(cwd, token, kind, k);
        }
      }
    }
  }

  /** The parent `cwd[..k - 1]`, when its name is of the tier's kind, is a member of the tier. */
  lemma ParentMember(cwd: Path, token: string, kind: Kind, k: nat)
    requires 2 <= k <= |cwd| && Classify(cwd[k - 2], token) == kind
    ensures TierMember(cwd, token, kind, k, DirectoryMatch(cwd[..k - 1], k - 1 - |cwd|, UpQuality(kind)))
  {
    var path := cwd[..k - 1];
    assert |path| == k - 1 && path[k - 2] == cwd[k - 2] && path == cwd[..|path|];
  }

  lemma {:induction false} AboveOrder(cwd: Path, token: string, kind: Kind, k: nat)
    requires k <= |cwd|
    ensures forall i, j :: 0 <= i < j < |Above(cwd, token, kind, k)| ==>
      |Above(cwd, token, kind, k)[i].path| > |Above(cwd, token, kind, k)[j].path|
    decreases k
  {
    if k > 1 {
      AboveOrder(cwd, token, kind, k - 1);
      AboveMembers(cwd, token, kind, k - 1);
      AboveStep(cwd, token, kind, k);
      var rest := Above(cwd, token, kind, k - 1);
      var r := Above(cwd, token, kind, k);
      if Classify(cwd[k - 2], token) == kind {
        forall i, j | 0 <= i < j < |r| ensures |r[i].path| > |r[j].path| {
          assert r[j] == rest[j - 1] && rest[j - 1] in rest;
          if i > 0 {
            assert r[i] == rest[i - 1];
          }
        }
      }
    }
  }

  /** Every ancestor below `cwd[..k]` whose name classifies as `kind` is in the tier. */
  lemma {:induction false} AboveComplete(cwd: Path, token: string, kind: Kind, k: nat, j: nat)
    requires k <= |cwd|
    requires 1 <= j < k
    requires Classify(cwd[j - 1], token) == kind
    ensures DirectoryMatch(cwd[..j], j - |cwd|, UpQuality(kind)) in Above(cwd, token, kind, k)
    decreases k
  {
    if j < k - 1 {
      AboveComplete(cwd, token, kind, k - 1, j);
    }
  }

  /**
   * The upward walk finds exactly the named ancestors whose name contains
   * the token: each with its distance, its tier decided by exact equality,
   * none twice, exact matches before partial ones and nearer ancestors
   * first within a tier.
   */
  lemma AncestorMatchesSound(cwd: Path, token: string)
    ensures var r := AncestorMatches(cwd, token);
      forall m :: m in r ==>
        && 1 <= |m.path| < |cwd|
        && m.path == cwd[..|m.path|]
        && m.depthFromCurrent == |m.path| - |cwd|
        && -|cwd| < m.depthFromCurrent <= -1
        && (m.matchQuality == ExactUp <==> Classify(cwd[|m.path| - 1], token) == Exact)
        && (m.matchQuality == PartialUp <==> Classify(cwd[|m.path| - 1], token) == Partial)
        && IsUp(m.matchQuality)
        && Contains(Lower(cwd[|m.path| - 1]), Lower(token))
  {
    var e := Above(cwd, token, Exact, |cwd|);
    var p := Above(cwd, token, Partial, |cwd|);
    AboveShape(cwd, token, Exact, |cwd|);
    AboveShape(cwd, token, Partial, |cwd|);
    forall m | m in e + p
      ensures TierMember(cwd, token, Exact, |cwd|, m) || TierMember(cwd, token, Partial, |cwd|, m)
    {
      if m in e {
        var i :| 0 <= i < |e| && e[i] == m;
      } else {
        var i :| 0 <= i < |p| && p[i] == m;
      }
    }
  }

  lemma AncestorMatchesComplete(cwd: Path, token: string, j: nat)
    requires 1 <= j < |cwd|
    requires Contains(Lower(cwd[j - 1]), Lower(token))
    ensures exists m :: m in AncestorMatches(cwd, token) && m.path == cwd[..j]
  {
    var kind := Classify(cwd[j - 1], token);
    AboveComplete(cwd, token, kind, |cwd|, j);
    var m := DirectoryMatch(cwd[..j], j - |cwd|, UpQuality(kind));
    assert m in AncestorMatches(cwd, token);
  }

  /** Two candidates in walk order are in the finalizer's order: exact before partial, nearer first within a tier. */
  lemma TierBefore(cwd: Path, token: string, kind1: Kind, kind2: Kind, a: DirectoryMatch, b: DirectoryMatch)
    requires TierMember(cwd, token, kind1, |cwd|, a) && TierMember(cwd, token, kind2, |cwd|, b)
    requires (kind1 == Exact && kind2 == Partial) || (kind1 == kind2 && |a.path| > |b.path|)
    ensures Before(a, b) && PathOf(a) != PathOf(b)
  {
  }

  /** The walk's result has distinct paths and is in the finalizer's order. */
  lemma AncestorOrder(cwd: Path, token: string)
    ensures var r := AncestorMatches(cwd, token);
      PathsDistinct(r) && StrictlySortedBy(r, Before)
  {
    var e := Above(cwd, token, Exact, |cwd|);
    var p := Above(cwd, token, Partial, |cwd|);
    var r := e + p;
    AboveShape(cwd, token, Exact, |cwd|);
    AboveShape(cwd, token, Partial, |cwd|);
    forall i, j | 0 <= i < j < |r| ensures Before(r[i], r[j]) && PathOf(r[i]) != PathOf(r[j]) {
      if j < |e| {
        assert r[i] == e[i] && r[j] == e[j];
        TierBefore(cwd, token, Exact, Exact, e[i], e[j]);
      } else if i >= |e| {
        assert r[i] == p[i - |e|] && r[j] == p[j - |e|];
        TierBefore(cwd, token, Partial, Partial, p[i - |e|], p[j - |e|]);
      } else {
        assert r[i] == e[i] && r[j] == p[j - |e|];
        TierBefore(cwd, token, Exact, Partial, e[i], p[j - |e|]);
      }
    }
  }

  /**
   * The upward result is already in the finalizer's order with distinct
   * paths, so returning it unfinalized loses nothing: finalizing it is the
   * identity.
   */
  lemma AncestorMatchesFinalized(cwd: Path, token: string)
    ensures var r := AncestorMatches(cwd, token);
      && PathsDistinct(r)
      && StrictlySortedBy(r, Before)
      && (forall i, j :: 0 <= i < j < |r| && r[i].matchQuality == PartialUp ==> r[j].matchQuality == PartialUp)
      && FinalizeMatches(r) == r
  {
    AncestorOrder(cwd, token);
    ExactFirst(cwd, token);
    FinalizeOfOrdered(AncestorMatches(cwd, token));
  }

  /** No exact ancestor follows a partial one. */
  lemma ExactFirst(cwd: Path, token: string)
    ensures var r := AncestorMatches(cwd, token);
      forall i, j :: 0 <= i < j < |r| && r[i].matchQuality == PartialUp ==> r[j].matchQuality == PartialUp
  {
    var e := Above(cwd, token, Exact, |cwd|);
    var p := Above(cwd, token, Partial, |cwd|);
    var r := e + p;
    AboveShape(cwd, token, Exact, |cwd|);
    AboveShape(cwd, token, Partial, |cwd|);
    assert forall i :: 0 <= i < |e| ==> r[i] == e[i];
    assert forall j :: |e| <= j < |r| ==> r[j] == p[j - |e|];
  }

  /**
   * Nothing special-cases the empty token: it is contained in every name,
   * so every named ancestor comes back, as a partial match.
   */
  lemma EmptyTokenReturnsAllAncestors(cwd: Path)
    requires forall i :: 0 <= i < |cwd| ==> cwd[i] != ""
    requires |cwd| >= 1
    ensures |AncestorMatches(cwd, "")| == |cwd| - 1
    ensures forall m :: m in AncestorMatches(cwd, "") ==> m.matchQuality == PartialUp
  {
    NoExactForEmpty(cwd, |cwd|);
    AllPartialForEmpty(cwd, |cwd|);
    AboveShape(cwd, "", Partial, |cwd|);
  }

  lemma {:induction false} NoExactForEmpty(cwd: Path, k: nat)
    requires k <= |cwd|
    requires forall i :: 0 <= i < |cwd| ==> cwd[i] != ""
    ensures Above(cwd, "", Exact, k) == []
    decreases k
  {
    if k > 1 {
      EmptyTokenClassifiesPartial(cwd[k - 2]);
      NoExactForEmpty(cwd, k - 1);
    }
  }

  lemma {:induction false} AllPartialForEmpty(cwd: Path, k: nat)
    requires 1 <= k <= |cwd|
    requires forall i :: 0 <= i < |cwd| ==> cwd[i] != ""
    ensures |Above(cwd, "", Partial, k)| == k - 1
    decreases k
  {
    if k > 1 {
      EmptyTokenClassifiesPartial(cwd[k - 2]);
      AllPartialForEmpty(cwd, k - 1);
    }
  }
}
