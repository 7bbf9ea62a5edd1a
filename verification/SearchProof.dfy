/** What the whole search guarantees: the best path, a complete negative answer, and a
    rejection proof that covers every route to an anchor. */
module SearchProof {
  import opened Basics
  import opened Certificates
  import opened SearchSpec
  import opened SearchPaths

  // ----- Optimality -------------------------------------------------------------------

  /** Fewer certificates first, then the smaller fingerprint sequence. */
  ghost predicate NoBetter(p: Path, r: Path) {
    |p| < |r| || (|p| == |r| && AtMost(p, r))
  }

  lemma RoundMisses(g: Graph, leaf: Fp, n: nat, r: Path)
    requires n >= 1 && ValidPath(g, leaf, r) && VisitAt(g, [leaf], n).found == None
    ensures |r| > n + 1 && VisitAt(g, [leaf], n).cutoff
  {
    assert r[..1] == [leaf];
    if |r| <= n + 1 {
      VisitComplete(g, [leaf], n, r);
    }
    if !VisitAt(g, [leaf], n).cutoff {
      VisitStable(g, [leaf], n, n + |r|);
      VisitComplete(g, [leaf], n + |r|, r);
    }
  }

  /** If the rounds up to `n` find nothing, every valid path is longer and something was cut off. */
  lemma {:induction false} RoundsMiss(g: Graph, leaf: Fp, n: nat, r: Path)
    requires leaf in g.certs && n >= 1 && ValidPath(g, leaf, r) && Rounds(g, leaf, n).found == None
    ensures |r| > n + 1 && Rounds(g, leaf, n).cutoff
  {
    if n > 1 {
      RoundsMiss(g, leaf, n - 1, r);
    }
    RoundMisses(g, leaf, n, r);
  }

  lemma RoundFinds(g: Graph, leaf: Fp, n: nat, r: Path)
    requires n >= 1 && leaf in g.certs && ValidPath(g, leaf, r) && (n == 1 || |r| > n)
    requires VisitAt(g, [leaf], n).found.Some?
    ensures NoBetter(VisitAt(g, [leaf], n).found.value, r)
  {
    var p := VisitAt(g, [leaf], n).found.value;
    VisitSound(g, [leaf], n);
    if |r| <= n + 1 {
      assert r[..1] == [leaf];
      VisitComplete(g, [leaf], n, r);
      if n == 1 {
        LexSameStart(p, r);
      }
    }
  }

  /** Two paths of one certificate or more that start alike do not diverge at the start. */
  lemma LexSameStart(p: Path, r: Path)
    requires |p| > 0 && |r| > 0 && p[0] == r[0] && AtMost(p, r)
    ensures |r| == 1 ==> p == r
  {
  }

  lemma {:induction false} RoundsFind(g: Graph, leaf: Fp, n: nat, r: Path)
    requires leaf in g.certs && g.leafCheck(leaf) == None && Rounds(g, leaf, n).found.Some?
    ensures var p := Rounds(g, leaf, n).found.value;
            ValidPath(g, leaf, p) && |p| <= n + 1 && (ValidPath(g, leaf, r) ==> NoBetter(p, r))
  {
    var before := Rounds(g, leaf, n - 1);
    if before.found.Some? {
      RoundsFind(g, leaf, n - 1, r);
    } else {
      VisitSound(g, [leaf], n);
      if ValidPath(g, leaf, r) {
        if n > 1 {
          RoundsMiss(g, leaf, n - 1, r);
        }
        RoundFinds(g, leaf, n, r);
      }
    }
  }

  lemma {:induction false} RoundsStop(g: Graph, leaf: Fp, n: nat, max: nat)
    requires leaf in g.certs && n <= max && Rounds(g, leaf, n).found == None && !Rounds(g, leaf, n).cutoff
    ensures VisitAt(g, [leaf], max).found == None && !VisitAt(g, [leaf], max).cutoff
  {
    if n >= 1 {
      var before := Rounds(g, leaf, n - 1);
      if !before.cutoff {
        RoundsStop(g, leaf, n - 1, max);
      } else {
        VisitStable(g, [leaf], n, max);
      }
    }
  }

  lemma {:induction false} LastRound(g: Graph, leaf: Fp, max: nat)
    requires leaf in g.certs && max >= 1 && Rounds(g, leaf, max).found == None
    ensures VisitAt(g, [leaf], max).found == None
    ensures VisitAt(g, [leaf], max).cutoff == Rounds(g, leaf, max).cutoff
  {
    if !Rounds(g, leaf, max).cutoff {
      RoundsStop(g, leaf, max, max);
    } else {
      assert Rounds(g, leaf, max - 1).cutoff;
    }
  }

  /** The search returns a path exactly when there is a valid one of at most
      `maxPathLen` + 1 certificates, and then the best of all valid paths. */
  lemma SearchIsOptimal(g: Graph, leaf: Fp, maxPathLen: nat)
    requires leaf in g.certs && maxPathLen >= 1
    ensures var s := SearchOf(g, leaf, maxPathLen);
            && (s.path.Some? <==> exists r :: ValidPath(g, leaf, r) && |r| <= maxPathLen + 1)
            && (s.path.Some? ==> ValidPath(g, leaf, s.path.value) && |s.path.value| <= maxPathLen + 1
                                 && forall r :: ValidPath(g, leaf, r) ==> NoBetter(s.path.value, r))
            && (s.path.Some? <==> s.proof == None)
  {
    var s := SearchOf(g, leaf, maxPathLen);
    if g.leafCheck(leaf) == None {
      var rounds := Rounds(g, leaf, maxPathLen);
      if rounds.found.Some? {
        forall r ensures ValidPath(g, leaf, r) ==> NoBetter(s.path.value, r) {
          RoundsFind(g, leaf, maxPathLen, r);
        }
        RoundsFind(g, leaf, maxPathLen, s.path.value);
      } else {
        LastRound(g, leaf, maxPathLen);
        forall r | ValidPath(g, leaf, r) ensures |r| > maxPathLen + 1 {
          RoundsMiss(g, leaf, maxPathLen, r);
        }
      }
    }
  }

  /** A proof that claims to be complete means that no valid path of any length exists. */
  lemma NegativeIsComplete(g: Graph, leaf: Fp, maxPathLen: nat)
    requires leaf in g.certs && maxPathLen >= 1
    requires var s := SearchOf(g, leaf, maxPathLen); s.proof.Some? && s.proof.value.complete
    ensures forall r :: !ValidPath(g, leaf, r)
  {
    forall r ensures !ValidPath(g, leaf, r) {
      if ValidPath(g, leaf, r) {
        RoundsMiss(g, leaf, maxPathLen, r);
      }
    }
  }

  /** A path that is found keeps to the documented limit exactly when some valid path does. */
  lemma LimitIsMet(g: Graph, leaf: Fp, maxPathLen: nat)
    requires leaf in g.certs && maxPathLen >= 1 && SearchOf(g, leaf, maxPathLen).path.Some?
    ensures |SearchOf(g, leaf, maxPathLen).path.value| <= maxPathLen
        <==> exists r :: ValidPath(g, leaf, r) && |r| <= maxPathLen
  {
    SearchIsOptimal(g, leaf, maxPathLen);
  }

  // ----- When an exploration is complete --------------------------------------------------

  /** The path climbs, in just so many steps, to a certificate that is no anchor but has a way
      to one: there the search has no depth left. */
  ghost predicate RunsOut(g: Graph, path: Path, depth: nat, r: Path) {
    Climbs(g, r) && |path| > 0 && Extends(r, path) && |r| == |path| + depth && Last(r) !in g.anchors
    && CanReach(g, Last(r))
  }

  lemma {:induction false} ReachesDown(g: Graph, r: Path, k: nat)
    requires Climbs(g, r) && k < |r| && CanReach(g, Last(r))
    ensures CanReach(g, r[k])
    decreases |r| - k
  {
    if k + 1 < |r| {
      ReachesDown(g, r, k + 1);
      ClimbsPrefix(g, r, k + 1);
      assert Last(r[..k + 1]) == r[k];
      ChildReaches(g, r[k], r[k + 1]);
    }
  }

  lemma {:induction false} VisitCutoff(g: Graph, path: Path, depth: nat)
    requires Climbs(g, path) && depth >= 1 && VisitAt(g, path, depth).found == None
    ensures VisitAt(g, path, depth).cutoff <==> exists r :: RunsOut(g, path, depth, r)
    decreases g.certs - Elements(path), 2, 0
  {
    forall r | RunsOut(g, path, depth, r) ensures Step(g, path, r[|path|]) {
      ClimbsPrefix(g, r, |path|);
    }
    if Last(path) !in g.anchors {
      var parents := Open(g, path);
      TriedCutoff(g, path, parents, |parents|, depth);
      forall r | RunsOut(g, path, depth, r) ensures r[|path|] in parents[..|parents|] {
      }
    }
  }

  lemma {:induction false} TriedCutoff(g: Graph, path: Path, parents: seq<Fp>, n: nat, depth: nat)
    requires Climbs(g, path) && Last(path) !in g.anchors && depth >= 1 && n <= |parents|
    requires forall p :: p in parents ==> p in g.certs && IsParent(g, Last(path), p) && p !in path
    requires Tried(g, path, parents, n, depth).found == None
    ensures Tried(g, path, parents, n, depth).cutoff <==>
              exists r :: RunsOut(g, path, depth, r) && r[|path|] in parents[..n]
    decreases g.certs - Elements(path), 1, n
  {
    if n > 0 {
      TriedCutoff(g, path, parents, n - 1, depth);
      TryCutoff(g, path, parents[n - 1], depth);
      assert parents[..n] == parents[..n - 1] + [parents[n - 1]];
    }
  }

  lemma AnchorCutsNothing(g: Graph, path: Path, depth: int)
    requires OnGraph(g, path) && Last(path) in g.anchors
    ensures !VisitAt(g, path, depth).cutoff
  {
  }

  lemma {:induction false} TryCutoff(g: Graph, path: Path, p: Fp, depth: nat)
    requires Climbs(g, path) && Last(path) !in g.anchors && depth >= 1
    requires IsParent(g, Last(path), p) && p !in path && Try(g, path, p, depth).found == None
    ensures Try(g, path, p, depth).cutoff <==> exists r :: RunsOut(g, path, depth, r) && r[|path|] == p
    decreases g.certs - Elements(path), 0, 0
  {
    hide VisitAt, CanReach, EdgeFailure, Climbs;
    Smaller(g, path, p);
    var next := path + [p];
    forall r | RunsOut(g, path, depth, r) && r[|path|] == p
      ensures EdgeFailure(g, path, p) == None && CanReach(g, p) && Extends(r, next)
      ensures p !in g.anchors
    {
      ClimbsPrefix(g, r, |path|);
      ReachesDown(g, r, |path|);
      assert r[..|next|] == next;
      if |r| > |next| {
        ClimbsPrefix(g, r, |next|);
      }
    }
    if p in g.anchors {
      AnchorCutsNothing(g, next, depth - 1);
    }
    if EdgeFailure(g, path, p) == None && p !in g.anchors && CanReach(g, p) {
      ClimbsOn(g, path, p);
      if depth == 1 {
        assert RunsOut(g, path, depth, next) && next[|path|] == p;
      } else {
        VisitCutoff(g, next, depth - 1);
        forall r ensures RunsOut(g, next, depth - 1, r) <==> RunsOut(g, path, depth, r) && r[|path|] == p {
          if RunsOut(g, next, depth - 1, r) {
            assert r[..|path|] == next[..|path|] && r[|path|] == next[|path|];
          }
        }
      }
    }
  }

  /** A proof is complete exactly when the leaf itself is rejected or no path climbs from it in
      `maxPathLen` steps to a certificate that is no anchor but has a way to one. */
  lemma CompleteMeans(g: Graph, leaf: Fp, maxPathLen: nat)
    requires leaf in g.certs && maxPathLen >= 1 && SearchOf(g, leaf, maxPathLen).proof.Some?
    ensures SearchOf(g, leaf, maxPathLen).proof.value.complete <==>
              g.leafCheck(leaf).Some? || forall r :: !RunsOut(g, [leaf], maxPathLen, r)
  {
    if g.leafCheck(leaf) == None {
      LastRound(g, leaf, maxPathLen);
      VisitCutoff(g, [leaf], maxPathLen);
    }
  }

  // ----- The rejection proof ------------------------------------------------------------

  /** A branch ends at the first rule that fails: an edge check, the rules on a whole path,
      no candidate left, or no way to an anchor. */
  ghost predicate Justified(g: Graph, b: Branch) {
    || (Climbs(g, b.path) && Last(b.path) in g.anchors && g.terminal(b.path) == Some(b.failure))
    || (Climbs(g, b.path) && Last(b.path) !in g.anchors && Open(g, b.path) == []
        && b.failure == Failure(Last(b.path), NoIssuer))
    || (Climbs(g, b.path) && Last(b.path) !in g.anchors && !CanReach(g, Last(b.path))
        && b.failure == Failure(Last(b.path), NoTrustedAnchor))
    || (|b.path| > 1 && Climbs(g, b.path[..|b.path| - 1]) && Last(b.path[..|b.path| - 1]) !in g.anchors
        && IsParent(g, Last(b.path[..|b.path| - 1]), Last(b.path)) && Last(b.path) !in b.path[..|b.path| - 1]
        && EdgeFailure(g, b.path[..|b.path| - 1], Last(b.path)) == Some(b.failure))
  }

  /** Branches in lexicographic order, none a prefix of another. */
  ghost predicate InOrder(bs: seq<Branch>) {
    forall i, j :: 0 <= i < j < |bs| ==> LexBelow(bs[i].path, bs[j].path)
  }

  ghost predicate GoodBranches(g: Graph, path: Path, bs: seq<Branch>) {
    InOrder(bs) && forall b :: b in bs ==> Extends(b.path, path) && Justified(g, b)
  }

  lemma {:induction false} VisitBranches(g: Graph, path: Path, depth: int)
    requires Climbs(g, path)
    ensures GoodBranches(g, path, VisitAt(g, path, depth).branches)
    decreases g.certs - Elements(path), 2, 0
  {
    if Last(path) !in g.anchors {
      TriedBranches(g, path, Open(g, path), |Open(g, path)|, depth);
    }
  }

  lemma {:induction false} TriedBranches(g: Graph, path: Path, parents: seq<Fp>, n: nat, depth: int)
    requires Climbs(g, path) && Last(path) !in g.anchors && n <= |parents| && StrictlyAscending(parents)
    requires forall p :: p in parents ==> p in g.certs && IsParent(g, Last(path), p) && p !in path
    ensures var bs := Tried(g, path, parents, n, depth).branches;
            GoodBranches(g, path, bs) && forall b :: b in bs ==> |b.path| > |path| && b.path[|path|] in parents[..n]
    decreases g.certs - Elements(path), 1, n
  {
    if n > 0 {
      TriedBranches(g, path, parents, n - 1, depth);
      TryBranches(g, path, parents[n - 1], depth);
      var earlier := Tried(g, path, parents, n - 1, depth).branches;
      var here := Try(g, path, parents[n - 1], depth).branches;
      forall i, j | 0 <= i < |earlier| && 0 <= j < |here| ensures LexBelow(earlier[i].path, here[j].path) {
        assert earlier[i] in earlier && here[j] in here;
        SiblingsDiverge(path, earlier[i].path, here[j].path);
      }
      assert parents[..n] == parents[..n - 1] + [parents[n - 1]];
      AppendInOrder(earlier, here);
    }
  }

  lemma AppendInOrder(a: seq<Branch>, b: seq<Branch>)
    requires InOrder(a) && InOrder(b)
    requires forall i, j :: 0 <= i < |a| && 0 <= j < |b| ==> LexBelow(a[i].path, b[j].path)
    ensures InOrder(a + b)
  {
  }

  lemma {:induction false} TryBranches(g: Graph, path: Path, p: Fp, depth: int)
    requires Climbs(g, path) && Last(path) !in g.anchors && IsParent(g, Last(path), p) && p !in path
    ensures var bs := Try(g, path, p, depth).branches;
            GoodBranches(g, path, bs) && forall b :: b in bs ==> |b.path| > |path| && b.path[|path|] == p
    decreases g.certs - Elements(path), 0, 0
  {
    Smaller(g, path, p);
    var next := path + [p];
    assert next[..|next| - 1] == path;
    if EdgeFailure(g, path, p) == None {
      ClimbsOn(g, path, p);
      VisitBranches(g, next, depth - 1);
      forall b | b in VisitAt(g, next, depth - 1).branches
        ensures Extends(b.path, path) && |b.path| > |path| && b.path[|path|] == p
      {
        assert b.path[..|next|] == next;
        assert b.path[..|path|] == next[..|path|];
        assert b.path[|path|] == next[|path|];
      }
    }
  }

  /** A way from the first certificate to an anchor over issuer edges: no certificate twice,
      no anchor before the end. No check but the edges themselves need pass. */
  ghost predicate Route(g: Graph, r: Path) {
    OnGraph(g, r) && Last(r) in g.anchors
    && (forall i, j :: 0 <= i < j < |r| ==> r[i] != r[j])
    && (forall i: nat :: i + 1 < |r| ==> r[i] !in g.anchors && IsParent(g, r[i], r[i + 1]))
  }

  ghost predicate Covered(bs: seq<Branch>, r: Path) {
    exists b :: b in bs && Extends(r, b.path)
  }

  lemma {:induction false} VisitCovers(g: Graph, path: Path, depth: int, r: Path)
    requires OnGraph(g, path) && Route(g, r) && Extends(r, path)
    requires VisitAt(g, path, depth).found == None && !VisitAt(g, path, depth).cutoff
    ensures Covered(VisitAt(g, path, depth).branches, r)
    decreases g.certs - Elements(path), 2, 0
  {
    if Last(path) in g.anchors {
      assert path == r;
      var b := Branch(path, g.terminal(path).value);
      assert b in VisitAt(g, path, depth).branches;
    } else {
      var k := |path|;
      assert r[k - 1] == Last(path) && IsParent(g, r[k - 1], r[k]);
      assert r[k] !in path by {
        assert forall i :: 0 <= i < k ==> path[i] == r[i];
      }
      var parents := Open(g, path);
      var j :| 0 <= j < |parents| && parents[j] == r[k];
      TriedCovers(g, path, parents, |parents|, depth, r, j);
    }
  }

  lemma {:induction false} TriedCovers(g: Graph, path: Path, parents: seq<Fp>, n: nat, depth: int, r: Path, j: nat)
    requires OnGraph(g, path) && Route(g, r) && Extends(r, path) && |path| < |r| && Last(path) !in g.anchors
    requires forall p :: p in parents ==> p in g.certs && p !in path
    requires j < n <= |parents| && parents[j] == r[|path|]
    requires Tried(g, path, parents, n, depth).found == None && !Tried(g, path, parents, n, depth).cutoff
    ensures Covered(Tried(g, path, parents, n, depth).branches, r)
    decreases g.certs - Elements(path), 1, n
  {
    if j < n - 1 {
      TriedCovers(g, path, parents, n - 1, depth, r, j);
      var b :| b in Tried(g, path, parents, n - 1, depth).branches && Extends(r, b.path);
      assert b in Tried(g, path, parents, n, depth).branches;
    } else {
      TryCovers(g, path, parents[j], depth, r);
      var b :| b in Try(g, path, parents[j], depth).branches && Extends(r, b.path);
      assert b in Tried(g, path, parents, n, depth).branches;
    }
  }

  lemma {:induction false} TryCovers(g: Graph, path: Path, p: Fp, depth: int, r: Path)
    requires OnGraph(g, path) && Route(g, r) && Extends(r, path) && |path| < |r| && p == r[|path|] && p !in path
    requires Try(g, path, p, depth).found == None && !Try(g, path, p, depth).cutoff
    ensures Covered(Try(g, path, p, depth).branches, r)
    decreases g.certs - Elements(path), 0, 0
  {
    Smaller(g, path, p);
    SuffixReaches(g, r, |path|);
    var next := path + [p];
    assert r[..|next|] == next;
    if EdgeFailure(g, path, p).Some? {
      var b := Branch(next, EdgeFailure(g, path, p).value);
      assert b in Try(g, path, p, depth).branches;
    } else {
      VisitCovers(g, next, depth - 1, r);
      var b :| b in VisitAt(g, next, depth - 1).branches && Extends(r, b.path);
      assert b in Try(g, path, p, depth).branches;
    }
  }

  /** The recorded branches are in lexicographic order with none a prefix of another, each ends
      at the rule that rejects it, and if the proof is complete every route from the leaf to
      an anchor has exactly one recorded branch as a prefix. */
  lemma ProofCoversEveryRoute(g: Graph, leaf: Fp, maxPathLen: nat)
    requires leaf in g.certs && maxPathLen >= 1 && g.leafCheck(leaf) == None
    requires SearchOf(g, leaf, maxPathLen).proof.Some?
    ensures var proof := SearchOf(g, leaf, maxPathLen).proof.value;
            && GoodBranches(g, [leaf], proof.branches)
            && (proof.complete ==>
                  forall r :: Route(g, r) && r[0] == leaf ==>
                    exists i :: 0 <= i < |proof.branches| && Extends(r, proof.branches[i].path)
                      && forall j :: 0 <= j < |proof.branches| && Extends(r, proof.branches[j].path) ==> j == i)
  {
    hide VisitAt, Rounds;
    var v := VisitAt(g, [leaf], maxPathLen);
    VisitBranches(g, [leaf], maxPathLen);
    LastRound(g, leaf, maxPathLen);
    if SearchOf(g, leaf, maxPathLen).proof.value.complete {
      forall r | Route(g, r) && r[0] == leaf
        ensures exists i :: 0 <= i < |v.branches| && Extends(r, v.branches[i].path)
                  && forall j :: 0 <= j < |v.branches| && Extends(r, v.branches[j].path) ==> j == i
      {
        assert r[..1] == [leaf];
        VisitCovers(g, [leaf], maxPathLen, r);
        var b :| b in v.branches && Extends(r, b.path);
        var i :| 0 <= i < |v.branches| && v.branches[i] == b;
        forall j | 0 <= j < |v.branches| && Extends(r, v.branches[j].path) ensures j == i {
          OneBranchPerRoute(v.branches, r, i, j);
        }
      }
    }
  }

  lemma OneBranchPerRoute(bs: seq<Branch>, r: Path, i: nat, j: nat)
    requires InOrder(bs) && i < |bs| && j < |bs|
    requires Extends(r, bs[i].path) && Extends(r, bs[j].path)
    ensures i == j
  {
    if i < j {
      PrefixesOfOne(bs[i].path, bs[j].path, r);
    } else if j < i {
      PrefixesOfOne(bs[j].path, bs[i].path, r);
    }
  }

  lemma PrefixesOfOne(a: Path, b: Path, r: Path)
    requires Extends(r, a) && Extends(r, b)
    ensures !LexBelow(a, b)
  {
    forall k: nat | k < |a| && k < |b| ensures !Diverges(a, b, k) {
      assert r[..|a|][k] == r[k] && r[..|b|][k] == r[k];
    }
  }
}
