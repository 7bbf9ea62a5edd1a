/** Valid paths, and what a search finds: only valid paths, and the first of them. */
module SearchPaths {
  import opened Basics
  import opened SearchSpec

  // ----- Valid paths ------------------------------------------------------------

  /** The path may be extended with `p`: it has not ended at an anchor, `p` is a new issuer
      candidate, and the edge passes every check. */
  ghost predicate Step(g: Graph, path: Path, p: Fp) {
    OnGraph(g, path) && Last(path) !in g.anchors && IsParent(g, Last(path), p) && p !in path
    && EdgeFailure(g, path, p) == None
  }

  ghost predicate Climbs(g: Graph, path: Path)
    ensures Climbs(g, path) ==> OnGraph(g, path)
  {
    |path| > 0 && path[0] in g.certs &&
    (|path| > 1 ==> Climbs(g, path[..|path| - 1]) && Step(g, path[..|path| - 1], Last(path)))
  }

  /** A path that ends at an anchor and passes the rules on whole paths. */
  ghost predicate Complete(g: Graph, path: Path) {
    Climbs(g, path) && Last(path) in g.anchors && g.terminal(path) == None
  }

  ghost predicate ValidPath(g: Graph, leaf: Fp, path: Path) {
    Complete(g, path) && path[0] == leaf && g.leafCheck(leaf) == None
  }

  /** Step `i` of the path leads from a non-anchor to a candidate and passes its checks. */
  ghost predicate PassesStep(g: Graph, path: Path, i: nat)
    requires i + 1 < |path|
  {
    path[i] !in g.anchors && IsParent(g, path[i], path[i + 1])
    && EdgeFailure(g, path[..i + 1], path[i + 1]) == None
  }

  /** What climbing means, step by step: no certificate twice, and every step passes. */
  lemma {:induction false} ClimbsMeans(g: Graph, path: Path)
    requires OnGraph(g, path)
    ensures Climbs(g, path) <==>
              (forall i, j :: 0 <= i < j < |path| ==> path[i] != path[j])
              && (forall i: nat :: i + 1 < |path| ==> PassesStep(g, path, i))
  {
    if |path| > 1 {
      var n := |path| - 1;
      ClimbsMeans(g, path[..n]);
      forall i: nat | i + 1 < n ensures PassesStep(g, path[..n], i) <==> PassesStep(g, path, i) {
        assert path[..n][..i + 1] == path[..i + 1];
      }
      assert PassesStep(g, path, n - 1) <==>
             Last(path[..n]) !in g.anchors && IsParent(g, Last(path[..n]), path[n])
             && EdgeFailure(g, path[..n], path[n]) == None;
    }
  }

  lemma {:induction false} ClimbsPrefix(g: Graph, path: Path, k: nat)
    requires Climbs(g, path) && 0 < k <= |path|
    ensures Climbs(g, path[..k])
    ensures k < |path| ==> Step(g, path[..k], path[k])
  {
    if k < |path| {
      if k == |path| - 1 {
      } else {
        ClimbsPrefix(g, path[..|path| - 1], k);
        assert path[..|path| - 1][..k] == path[..k];
      }
    } else {
      assert path[..k] == path;
    }
  }

  lemma ClimbsOn(g: Graph, path: Path, p: Fp)
    requires Climbs(g, path) && Step(g, path, p)
    ensures Climbs(g, path + [p])
  {
    assert (path + [p])[..|path|] == path;
  }

  // ----- The order of paths -------------------------------------------------------

  /** `a` comes before `b` at the first position where they differ. */
  ghost predicate Diverges(a: Path, b: Path, k: nat) {
    k < |a| && k < |b| && a[..k] == b[..k] && a[k] < b[k]
  }

  ghost predicate LexBelow(a: Path, b: Path) {
    exists k: nat :: Diverges(a, b, k)
  }

  ghost predicate AtMost(a: Path, b: Path) {
    a == b || LexBelow(a, b)
  }

  lemma LexBelowStrict(a: Path, b: Path)
    requires LexBelow(a, b)
    ensures !(a <= b) && !(b <= a) && a != b && !LexBelow(b, a)
  {
    var k: nat :| Diverges(a, b, k);
    forall j: nat | j < |a| && j < |b| ensures !Diverges(b, a, j) {
      if j < k {
        assert a[..k][j] == a[j] && b[..k][j] == b[j];
      } else if k < j {
        assert b[..j][k] == b[k] && a[..j][k] == a[k];
      }
    }
  }

  ghost predicate Extends(q: Path, path: Path) {
    |path| <= |q| && q[..|path|] == path
  }

  lemma SiblingsDiverge(path: Path, a: Path, b: Path)
    requires Extends(a, path) && Extends(b, path) && |path| < |a| && |path| < |b|
    requires a[|path|] < b[|path|]
    ensures LexBelow(a, b)
  {
    assert Diverges(a, b, |path|);
  }

  // ----- Soundness ------------------------------------------------------------------

  /** How far a search with this much depth can go. */
  function Bound(depth: int): nat {
    if depth < 0 then 0 else depth
  }

  lemma {:induction false} VisitSound(g: Graph, path: Path, depth: int)
    requires Climbs(g, path) && (depth >= 1 || Last(path) in g.anchors)
    ensures var f := VisitAt(g, path, depth).found;
            f.Some? ==> Complete(g, f.value) && Extends(f.value, path) && |f.value| <= |path| + Bound(depth)
    decreases g.certs - Elements(path), 2, 0
  {
    if Last(path) !in g.anchors {
      var parents := Open(g, path);
      TriedSound(g, path, parents, |parents|, depth);
    }
  }

  lemma {:induction false} TriedSound(g: Graph, path: Path, parents: seq<Fp>, n: nat, depth: int)
    requires Climbs(g, path) && Last(path) !in g.anchors && depth >= 1 && n <= |parents|
    requires forall p :: p in parents ==> p in g.certs && IsParent(g, Last(path), p) && p !in path
    ensures var f := Tried(g, path, parents, n, depth).found;
            f.Some? ==> Complete(g, f.value) && Extends(f.value, path)
                        && |path| < |f.value| <= |path| + depth && f.value[|path|] in parents[..n]
    decreases g.certs - Elements(path), 1, n
  {
    if n > 0 {
      TriedSound(g, path, parents, n - 1, depth);
      TrySound(g, path, parents[n - 1], depth);
      assert parents[..n] == parents[..n - 1] + [parents[n - 1]];
    }
  }

  lemma {:induction false} TrySound(g: Graph, path: Path, p: Fp, depth: int)
    requires Climbs(g, path) && Last(path) !in g.anchors && depth >= 1
    requires IsParent(g, Last(path), p) && p !in path
    ensures var f := Try(g, path, p, depth).found;
            f.Some? ==> Complete(g, f.value) && Extends(f.value, path)
                        && |path| < |f.value| <= |path| + depth && f.value[|path|] == p
    decreases g.certs - Elements(path), 0, 0
  {
    if Try(g, path, p, depth).found.Some? {
      Smaller(g, path, p);
      ClimbsOn(g, path, p);
      VisitSound(g, path + [p], depth - 1);
      var q := VisitAt(g, path + [p], depth - 1).found.value;
      assert q[..|path|] == (path + [p])[..|path|] == path;
      assert q[|path|] == (path + [p])[|path|];
    }
  }

  // ----- Completeness -----------------------------------------------------------------

  /** Every certificate of a chain of issuer edges can reach the anchor the chain ends at. */
  lemma SuffixReaches(g: Graph, r: Path, k: nat)
    requires OnGraph(g, r) && k < |r| && Last(r) in g.anchors
    requires forall i: nat :: i + 1 < |r| ==> IsParent(g, r[i], r[i + 1])
    ensures CanReach(g, r[k])
  {
    var chain := r[k..];
    assert forall i :: 0 <= i < |chain| ==> chain[i] == r[k + i];
    forall i | 0 <= i < |chain| - 1 ensures IsParent(g, chain[i], chain[i + 1]) {
      assert IsParent(g, r[k + i], r[k + i + 1]);
    }
    assert Chain(g, chain) && chain[0] == r[k] && chain[|chain| - 1] == r[|r| - 1];
  }

  lemma RestReaches(g: Graph, r: Path, k: nat)
    requires Climbs(g, r) && k < |r| && Last(r) in g.anchors
    ensures CanReach(g, r[k])
  {
    ClimbsMeans(g, r);
    forall i: nat | i + 1 < |r| ensures IsParent(g, r[i], r[i + 1]) {
      assert PassesStep(g, r, i);
    }
    SuffixReaches(g, r, k);
  }

  /** If a complete path within the depth extends this one, the search finds one at most as late. */
  lemma {:induction false} VisitComplete(g: Graph, path: Path, depth: int, r: Path)
    requires Complete(g, r) && Extends(r, path) && |path| > 0 && |r| <= |path| + Bound(depth)
    requires OnGraph(g, path)
    ensures var f := VisitAt(g, path, depth).found; f.Some? && AtMost(f.value, r)
    decreases g.certs - Elements(path), 2, 0
  {
    if |r| == |path| {
      assert r == path;
    } else {
      ClimbsPrefix(g, r, |path|);
      var parents := Open(g, path);
      var j :| 0 <= j < |parents| && parents[j] == r[|path|];
      TriedComplete(g, path, parents, |parents|, depth, r, j);
    }
  }

  lemma {:induction false} TriedComplete(g: Graph, path: Path, parents: seq<Fp>, n: nat, depth: int, r: Path, j: nat)
    requires Complete(g, r) && Extends(r, path) && 0 < |path| < |r| <= |path| + Bound(depth)
    requires OnGraph(g, path) && parents == Open(g, path)
    requires j < n <= |parents| && parents[j] == r[|path|]
    ensures var f := Tried(g, path, parents, n, depth).found; f.Some? && AtMost(f.value, r)
    decreases g.certs - Elements(path), 1, n
  {
    ClimbsPrefix(g, r, |path|);
    if j < n - 1 {
      TriedComplete(g, path, parents, n - 1, depth, r, j);
    } else {
      var before := Tried(g, path, parents, n - 1, depth).found;
      TriedSound(g, path, parents, n - 1, depth);
      if before.Some? {
        var i :| 0 <= i < n - 1 && parents[i] == before.value[|path|];
        SiblingsDiverge(path, before.value, r);
      } else {
        TryComplete(g, path, parents[j], depth, r);
      }
    }
  }

  lemma {:induction false} TryComplete(g: Graph, path: Path, p: Fp, depth: int, r: Path)
    requires Complete(g, r) && Extends(r, path) && 0 < |path| < |r| <= |path| + Bound(depth)
    requires OnGraph(g, path) && p in g.certs && p !in path && p == r[|path|]
    ensures var f := Try(g, path, p, depth).found; f.Some? && AtMost(f.value, r)
    decreases g.certs - Elements(path), 0, 0
  {
    ClimbsPrefix(g, r, |path|);
    RestReaches(g, r, |path|);
    var next := path + [p];
    assert r[..|next|] == next;
    if |r| > |next| {
      ClimbsPrefix(g, r, |next|);
    }
    Smaller(g, path, p);
    VisitComplete(g, next, depth - 1, r);
  }

  // ----- Depth --------------------------------------------------------------------------

  /** A visit that no cutoff touched is the same at every greater depth. */
  lemma {:induction false} VisitStable(g: Graph, path: Path, depth: int, deeper: int)
    requires OnGraph(g, path) && depth <= deeper && !VisitAt(g, path, depth).cutoff
    ensures VisitAt(g, path, deeper) == VisitAt(g, path, depth)
    decreases g.certs - Elements(path), 2, 0
  {
    if Last(path) !in g.anchors && Open(g, path) != [] {
      TriedStable(g, path, Open(g, path), |Open(g, path)|, depth, deeper);
    }
  }

  lemma {:induction false} TriedStable(g: Graph, path: Path, parents: seq<Fp>, n: nat, depth: int, deeper: int)
    requires OnGraph(g, path) && depth <= deeper && n <= |parents|
    requires forall p :: p in parents ==> p in g.certs && p !in path
    requires !Tried(g, path, parents, n, depth).cutoff
    ensures Tried(g, path, parents, n, deeper) == Tried(g, path, parents, n, depth)
    decreases g.certs - Elements(path), 1, n
  {
    if n > 0 {
      TriedStable(g, path, parents, n - 1, depth, deeper);
      if Tried(g, path, parents, n - 1, depth).found == None {
        TryStable(g, path, parents[n - 1], depth, deeper);
      }
    }
  }

  lemma {:induction false} TryStable(g: Graph, path: Path, p: Fp, depth: int, deeper: int)
    requires OnGraph(g, path) && depth <= deeper && p in g.certs && p !in path
    requires !Try(g, path, p, depth).cutoff
    ensures Try(g, path, p, deeper) == Try(g, path, p, depth)
    decreases g.certs - Elements(path), 0, 0
  {
    Smaller(g, path, p);
    if EdgeFailure(g, path, p) == None && (p in g.anchors || CanReach(g, p)) {
      VisitStable(g, path + [p], depth - 1, deeper - 1);
    }
  }
}
