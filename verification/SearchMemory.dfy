/** The search as it runs beside a status cache. The cache is keyed by certificate and issuer
    key, so a question is answered with what was answered first to any issuer with that key.
    The run is the simple search of one graph all the same: the graph as the run saw it. */
module SearchMemory {
  import opened Basics
  import opened Certificates
  import opened SearchSpec
  import SearchProbes

  type Probes = seq<(Fp, Fp)>

  // ----- What is remembered -------------------------------------------------------

  /** The issuer under which the status was first asked for this certificate and issuer key. */
  function Heard(g: Graph, asked: Probes, c: Fp, p: Fp): Option<Fp> {
    if asked == [] then None
    else
      var n := |asked| - 1;
      var earlier := Heard(g, asked[..n], c, p);
      if earlier.Some? then earlier
      else if asked[n].0 == c && g.key(asked[n].1) == g.key(p) then Some(asked[n].1)
      else None
  }

  /** The answer given after these questions: that of the first one with the same key. */
  function Told(g: Graph, asked: Probes, c: Fp, p: Fp): Status {
    g.status(c, Heard(g, asked, c, p).GetOr(p))
  }

  /** The graph with the statuses as they are answered after these questions. */
  ghost function Recalling(g: Graph, asked: Probes): Graph {
    g.(status := (c: Fp, p: Fp) => Told(g, asked, c, p))
  }

  lemma {:induction false} HeardStays(g: Graph, asked: Probes, all: Probes, c: Fp, p: Fp)
    requires asked <= all && Heard(g, asked, c, p).Some?
    ensures Heard(g, all, c, p) == Heard(g, asked, c, p)
  {
    if asked != all {
      assert asked <= all[..|all| - 1];
      HeardStays(g, asked, all[..|all| - 1], c, p);
    } else {
      assert asked == all;
    }
  }

  /** Once asked, a question is answered alike ever after. */
  lemma ToldAlike(g: Graph, asked: Probes, all: Probes, c: Fp, p: Fp)
    requires asked + [(c, p)] <= all
    ensures Told(g, all, c, p) == Told(g, asked, c, p)
  {
    var more := asked + [(c, p)];
    assert more[..|asked|] == asked;
    HeardStays(g, more, all, c, p);
  }

  // ----- The run ------------------------------------------------------------------

  /** `_dfs`, when the statuses in `asked` have been asked for before. */
  ghost function Explore(g: Graph, asked: Probes, path: Path, depth: int): Visit
    requires OnGraph(g, path)
    decreases g.certs - Elements(path), 2, 0
  {
    if Last(path) in g.anchors then
      match g.terminal(path)
      case None => Visit(Some(path), false, {}, [], 1, [])
      case Some(f) => Join(Spend(1), Reject(path, f))
    else
      var parents := Open(g, path);
      if parents == [] then Join(Spend(1), Reject(path, Failure(Last(path), NoIssuer)))
      else Join(Spend(1), ExploreFirst(g, asked, path, parents, |parents|, depth))
  }

  /** The first `n` candidates. */
  ghost function ExploreFirst(g: Graph, asked: Probes, path: Path, parents: seq<Fp>, n: nat, depth: int): Visit
    requires OnGraph(g, path) && n <= |parents|
    requires forall p :: p in parents ==> p in g.certs && p !in path
    decreases g.certs - Elements(path), 1, n
  {
    if n == 0 then Spend(0)
    else
      var before := ExploreFirst(g, asked, path, parents, n - 1, depth);
      if before.found.Some? then before
      else Join(before, ExploreOne(g, asked + before.probes, path, parents[n - 1], depth))
  }

  /** One candidate. */
  ghost function ExploreOne(g: Graph, asked: Probes, path: Path, p: Fp, depth: int): Visit
    requires OnGraph(g, path) && p in g.certs && p !in path
    decreases g.certs - Elements(path), 0, 0
  {
    Smaller(g, path, p);
    var here := Entered(g, path, p);
    var failure := EdgeFailure(Recalling(g, asked), path, p);
    if failure.Some? then Join(here, Reject(path + [p], failure.value))
    else if p in g.anchors then Join(here, Explore(g, asked + here.probes, path + [p], depth - 1))
    else if !CanReach(g, p) then Join(here, Reject(path + [p], Failure(p, NoTrustedAnchor)))
    else if depth <= 1 then here.(cutoff := true)
    else Join(here, Explore(g, asked + here.probes, path + [p], depth - 1))
  }

  ghost function RoundsRun(g: Graph, leaf: Fp, n: nat): Visit
    requires leaf in g.certs
  {
    if n == 0 then Visit(None, true, {leaf}, [], 0, [])
    else
      var before := RoundsRun(g, leaf, n - 1);
      if before.found.Some? || !before.cutoff then before
      else
        var v := Explore(g, before.probes, [leaf], n);
        Visit(v.found, v.cutoff, before.touched + v.touched, before.probes + v.probes, before.spent + v.spent, [])
  }

  /** `Explorer.search`, beside a cache that starts empty. */
  ghost function SearchRun(g: Graph, leaf: Fp, maxPathLen: nat): Search
    requires leaf in g.certs
  {
    var f := g.leafCheck(leaf);
    if f.Some? then Search(None, Some(Proof(true, [Branch([leaf], f.value)])), {leaf}, [], 0)
    else
      var r := RoundsRun(g, leaf, maxPathLen);
      if r.found.Some? then Search(r.found, None, r.touched, r.probes, r.spent)
      else
        var v := Explore(g, r.probes, [leaf], maxPathLen);
        Search(None, Some(Proof(!(r.cutoff || v.cutoff), v.branches)),
               r.touched + v.touched, r.probes + v.probes, r.spent + v.spent)
  }

  // ----- The run is a simple search -------------------------------------------------

  /** `h` is `g` with other statuses. */
  ghost predicate Restated(h: Graph, g: Graph) {
    h == g.(status := h.status)
  }

  /** The statuses of `h` are the answers given, as of all the questions asked. */
  ghost predicate Agrees(h: Graph, g: Graph, all: Probes, probes: Probes) {
    forall x :: x in probes ==> h.status(x.0, x.1) == Told(g, all, x.0, x.1)
  }

  lemma SameEdges(h: Graph, g: Graph, path: Path)
    requires Restated(h, g) && OnGraph(g, path)
    ensures OnGraph(h, path) && Open(h, path) == Open(g, path)
  {
    AscendingUnique(Open(h, path), Open(g, path));
  }

  lemma SameReach(h: Graph, g: Graph, p: Fp)
    requires Restated(h, g)
    ensures CanReach(h, p) <==> CanReach(g, p)
  {
    forall chain ensures Chain(h, chain) <==> Chain(g, chain) {
    }
  }

  /** The questions come next, and `h` has the answers given to them. */
  ghost predicate Fits(h: Graph, g: Graph, all: Probes, asked: Probes, probes: Probes) {
    asked + probes <= all && Agrees(h, g, all, probes)
  }

  lemma FitsParts(h: Graph, g: Graph, all: Probes, asked: Probes, a: Probes, b: Probes)
    requires Fits(h, g, all, asked, a + b)
    ensures Fits(h, g, all, asked, a) && Fits(h, g, all, asked + a, b)
  {
    assert asked + (a + b) == asked + a + b;
    assert asked + a <= asked + a + b;
    assert (asked + a + b)[..|asked + a|] == asked + a;
  }

  /** Beside the cache or on the graph with the answers given: if one of the two visits fits the
      answers, they are the same visit. */
  lemma {:induction false} ExploreIsVisit(h: Graph, g: Graph, all: Probes, asked: Probes, path: Path, depth: int)
    requires Restated(h, g) && OnGraph(g, path) && OnGraph(h, path)
    requires Fits(h, g, all, asked, Explore(g, asked, path, depth).probes)
             || Fits(h, g, all, asked, VisitAt(h, path, depth).probes)
    ensures VisitAt(h, path, depth) == Explore(g, asked, path, depth)
    decreases g.certs - Elements(path), 2, 0
  {
    hide Fits, ExploreFirst, Tried, Open;
    SameEdges(h, g, path);
    var parents := Open(g, path);
    if Last(path) !in g.anchors && parents != [] {
      assert [] + ExploreFirst(g, asked, path, parents, |parents|, depth).probes
          == ExploreFirst(g, asked, path, parents, |parents|, depth).probes;
      assert [] + Tried(h, path, parents, |parents|, depth).probes == Tried(h, path, parents, |parents|, depth).probes;
      FirstIsTried(h, g, all, asked, path, parents, |parents|, depth);
    }
  }

  lemma {:induction false} FirstIsTried(h: Graph, g: Graph, all: Probes, asked: Probes, path: Path,
          parents: seq<Fp>, n: nat, depth: int)
    requires Restated(h, g) && OnGraph(g, path) && OnGraph(h, path) && n <= |parents|
    requires forall p :: p in parents ==> p in g.certs && p !in path
    requires Fits(h, g, all, asked, ExploreFirst(g, asked, path, parents, n, depth).probes)
             || Fits(h, g, all, asked, Tried(h, path, parents, n, depth).probes)
    ensures Tried(h, path, parents, n, depth) == ExploreFirst(g, asked, path, parents, n, depth)
    decreases g.certs - Elements(path), 1, n
  {
    hide Fits, ExploreOne, Try;
    if n > 0 {
      var run, search := ExploreFirst(g, asked, path, parents, n - 1, depth), Tried(h, path, parents, n - 1, depth);
      var p := parents[n - 1];
      var one, try := ExploreOne(g, asked + run.probes, path, p, depth), Try(h, path, p, depth);
      if Fits(h, g, all, asked, ExploreFirst(g, asked, path, parents, n, depth).probes) {
        if run.found == None {
          FitsParts(h, g, all, asked, run.probes, one.probes);
        }
      } else if search.found == None {
        FitsParts(h, g, all, asked, search.probes, try.probes);
      }
      FirstIsTried(h, g, all, asked, path, parents, n - 1, depth);
      if run.found == None {
        OneIsTry(h, g, all, asked + run.probes, path, p, depth);
      }
    }
  }

  lemma {:induction false} OneIsTry(h: Graph, g: Graph, all: Probes, asked: Probes, path: Path, p: Fp, depth: int)
    requires Restated(h, g) && OnGraph(g, path) && OnGraph(h, path) && p in g.certs && p !in path
    requires Fits(h, g, all, asked, ExploreOne(g, asked, path, p, depth).probes)
             || Fits(h, g, all, asked, Try(h, path, p, depth).probes)
    ensures Try(h, path, p, depth) == ExploreOne(g, asked, path, p, depth)
    decreases g.certs - Elements(path), 0, 0
  {
    hide Fits, VisitAt, Explore, EdgeFailure, CanReach;
    Smaller(g, path, p);
    Smaller(h, path, p);
    SameReach(h, g, p);
    var here, next := Entered(g, path, p), path + [p];
    assert here == Entered(h, path, p);
    if Fits(h, g, all, asked, ExploreOne(g, asked, path, p, depth).probes) {
      OneFits(h, g, all, asked, path, p, depth);
    } else {
      TryFits(h, g, all, asked, path, p, depth);
    }
    EdgeIsTold(h, g, all, asked, path, p);
    if EdgeFailure(h, path, p) == None && (p in g.anchors || (CanReach(g, p) && depth > 1)) {
      ExploreIsVisit(h, g, all, asked + here.probes, next, depth - 1);
    }
  }

  lemma OneFits(h: Graph, g: Graph, all: Probes, asked: Probes, path: Path, p: Fp, depth: int)
    requires OnGraph(g, path) && p in g.certs && p !in path
    requires Fits(h, g, all, asked, ExploreOne(g, asked, path, p, depth).probes)
    ensures Fits(h, g, all, asked, Entered(g, path, p).probes)
    ensures EdgeFailure(Recalling(g, asked), path, p) == None && (p in g.anchors || (CanReach(g, p) && depth > 1)) ==>
              Fits(h, g, all, asked + Entered(g, path, p).probes,
                   Explore(g, asked + Entered(g, path, p).probes, path + [p], depth - 1).probes)
  {
    hide Fits, Explore, EdgeFailure, CanReach, Entered;
    var here := Entered(g, path, p).probes;
    if EdgeFailure(Recalling(g, asked), path, p) == None && (p in g.anchors || (CanReach(g, p) && depth > 1)) {
      FitsParts(h, g, all, asked, here, Explore(g, asked + here, path + [p], depth - 1).probes);
    } else {
      assert here + [] == here;
    }
  }

  lemma TryFits(h: Graph, g: Graph, all: Probes, asked: Probes, path: Path, p: Fp, depth: int)
    requires OnGraph(h, path) && p in h.certs && p !in path
    requires Fits(h, g, all, asked, Try(h, path, p, depth).probes)
    ensures Fits(h, g, all, asked, Entered(h, path, p).probes)
    ensures EdgeFailure(h, path, p) == None && (p in h.anchors || (CanReach(h, p) && depth > 1)) ==>
              Fits(h, g, all, asked + Entered(h, path, p).probes, VisitAt(h, path + [p], depth - 1).probes)
  {
    hide Fits, VisitAt, EdgeFailure, CanReach, Entered;
    var here := Entered(h, path, p).probes;
    if EdgeFailure(h, path, p) == None && (p in h.anchors || (CanReach(h, p) && depth > 1)) {
      FitsParts(h, g, all, asked, here, VisitAt(h, path + [p], depth - 1).probes);
    } else {
      assert here + [] == here;
    }
  }

  lemma EdgeIsTold(h: Graph, g: Graph, all: Probes, asked: Probes, path: Path, p: Fp)
    requires Restated(h, g) && |path| > 0 && Fits(h, g, all, asked, Entered(g, path, p).probes)
    ensures EdgeFailure(h, path, p) == EdgeFailure(Recalling(g, asked), path, p)
  {
    if g.plain(path, p) == None {
      ToldAlike(g, asked, all, Last(path), p);
      assert (Last(path), p) in Entered(g, path, p).probes;
    }
  }

  lemma {:induction false} RunIsRounds(h: Graph, g: Graph, all: Probes, leaf: Fp, n: nat)
    requires Restated(h, g) && leaf in g.certs && leaf in h.certs
    requires Fits(h, g, all, [], RoundsRun(g, leaf, n).probes) || Fits(h, g, all, [], Rounds(h, leaf, n).probes)
    ensures Rounds(h, leaf, n) == RoundsRun(g, leaf, n)
  {
    hide Fits, Explore, VisitAt;
    if n > 0 {
      var run, search := RoundsRun(g, leaf, n - 1), Rounds(h, leaf, n - 1);
      var v, w := Explore(g, run.probes, [leaf], n), VisitAt(h, [leaf], n);
      if Fits(h, g, all, [], RoundsRun(g, leaf, n).probes) {
        if run.found == None && run.cutoff {
          FitsParts(h, g, all, [], run.probes, v.probes);
        }
      } else if search.found == None && search.cutoff {
        FitsParts(h, g, all, [], search.probes, w.probes);
      }
      RunIsRounds(h, g, all, leaf, n - 1);
      if run.found == None && run.cutoff {
        assert [] + run.probes == run.probes;
        ExploreIsVisit(h, g, all, run.probes, [leaf], n);
      }
    }
  }

  /** If the statuses of a graph are the answers given in a run, or would be those given to the
      questions of its own search, then the run is its search. */
  lemma RunIsSearchOf(h: Graph, g: Graph, leaf: Fp, maxPathLen: nat)
    requires Restated(h, g) && leaf in g.certs && leaf in h.certs
    requires var probes := SearchRun(g, leaf, maxPathLen).probes;
             var own := SearchOf(h, leaf, maxPathLen).probes;
             Agrees(h, g, probes, probes) || Agrees(h, g, own, own)
    ensures SearchOf(h, leaf, maxPathLen) == SearchRun(g, leaf, maxPathLen)
  {
    hide Explore, VisitAt, Agrees;
    if g.leafCheck(leaf) == None {
      var probes, own := SearchRun(g, leaf, maxPathLen).probes, SearchOf(h, leaf, maxPathLen).probes;
      var all := if Agrees(h, g, probes, probes) then probes else own;
      var run, search := RoundsRun(g, leaf, maxPathLen), Rounds(h, leaf, maxPathLen);
      var v, w := Explore(g, run.probes, [leaf], maxPathLen), VisitAt(h, [leaf], maxPathLen);
      assert [] + all == all && Fits(h, g, all, [], all);
      if all == probes {
        if run.found == None {
          FitsParts(h, g, all, [], run.probes, v.probes);
        }
      } else if search.found == None {
        FitsParts(h, g, all, [], search.probes, w.probes);
      }
      RunIsRounds(h, g, all, leaf, maxPathLen);
      if run.found == None {
        assert [] + run.probes == run.probes;
        ExploreIsVisit(h, g, all, run.probes, [leaf], maxPathLen);
      }
    }
  }

  /** Every run is the simple search of the graph as the run saw it. */
  lemma RunIsSearch(g: Graph, leaf: Fp, maxPathLen: nat)
    requires leaf in g.certs
    ensures var s := SearchRun(g, leaf, maxPathLen); SearchOf(Recalling(g, s.probes), leaf, maxPathLen) == s
  {
    RunIsSearchOf(Recalling(g, SearchRun(g, leaf, maxPathLen).probes), g, leaf, maxPathLen);
  }

  // ----- Graphs with the same statuses ----------------------------------------------------

  ghost predicate SameStatuses(h: Graph, g: Graph) {
    forall c, p :: h.status(c, p) == g.status(c, p)
  }

  lemma {:induction false} ToldSame(h: Graph, g: Graph, asked: Probes, c: Fp, p: Fp)
    requires Restated(h, g) && SameStatuses(h, g)
    ensures Heard(h, asked, c, p) == Heard(g, asked, c, p) && Told(h, asked, c, p) == Told(g, asked, c, p)
  {
    if asked != [] {
      ToldSame(h, g, asked[..|asked| - 1], c, p);
    }
  }

  lemma {:induction false} ExploreSame(h: Graph, g: Graph, asked: Probes, path: Path, depth: int)
    requires Restated(h, g) && SameStatuses(h, g) && OnGraph(g, path)
    ensures OnGraph(h, path) && Explore(h, asked, path, depth) == Explore(g, asked, path, depth)
    decreases g.certs - Elements(path), 2, 0
  {
    SameEdges(h, g, path);
    if Last(path) !in g.anchors {
      FirstSame(h, g, asked, path, Open(g, path), |Open(g, path)|, depth);
    }
  }

  lemma {:induction false} FirstSame(h: Graph, g: Graph, asked: Probes, path: Path, parents: seq<Fp>, n: nat,
          depth: int)
    requires Restated(h, g) && SameStatuses(h, g) && OnGraph(g, path) && OnGraph(h, path) && n <= |parents|
    requires forall p :: p in parents ==> p in g.certs && p !in path
    ensures ExploreFirst(h, asked, path, parents, n, depth) == ExploreFirst(g, asked, path, parents, n, depth)
    decreases g.certs - Elements(path), 1, n
  {
    hide Explore, ExploreOne, CanReach, EdgeFailure, Told;
    if n > 0 {
      FirstSame(h, g, asked, path, parents, n - 1, depth);
      var before := ExploreFirst(g, asked, path, parents, n - 1, depth);
      OneSame(h, g, asked + before.probes, path, parents[n - 1], depth);
    }
  }

  lemma {:induction false} OneSame(h: Graph, g: Graph, asked: Probes, path: Path, p: Fp, depth: int)
    requires Restated(h, g) && SameStatuses(h, g) && OnGraph(g, path) && OnGraph(h, path)
    requires p in g.certs && p !in path
    ensures ExploreOne(h, asked, path, p, depth) == ExploreOne(g, asked, path, p, depth)
    decreases g.certs - Elements(path), 0, 0
  {
    Smaller(g, path, p);
    SameReach(h, g, p);
    ToldSame(h, g, asked, Last(path), p);
    assert EdgeFailure(Recalling(h, asked), path, p) == EdgeFailure(Recalling(g, asked), path, p);
    ExploreSame(h, g, asked + Entered(g, path, p).probes, path + [p], depth - 1);
  }

  lemma {:induction false} RoundsSame(h: Graph, g: Graph, leaf: Fp, n: nat)
    requires Restated(h, g) && SameStatuses(h, g) && leaf in g.certs
    ensures RoundsRun(h, leaf, n) == RoundsRun(g, leaf, n)
  {
    if n > 0 {
      RoundsSame(h, g, leaf, n - 1);
      ExploreSame(h, g, RoundsRun(g, leaf, n - 1).probes, [leaf], n);
    }
  }

  /** Runs depend on the statuses alone, not on how they are come by. */
  lemma RunSame(h: Graph, g: Graph, leaf: Fp, maxPathLen: nat)
    requires Restated(h, g) && SameStatuses(h, g) && leaf in g.certs
    ensures SearchRun(h, leaf, maxPathLen) == SearchRun(g, leaf, maxPathLen)
  {
    RoundsSame(h, g, leaf, maxPathLen);
    ExploreSame(h, g, RoundsRun(g, leaf, maxPathLen).probes, [leaf], maxPathLen);
  }

  // ----- When the cache does not show ------------------------------------------------------

  /** Issuer candidates of one certificate that share a key give it one status. */
  ghost predicate KeyDecides(g: Graph) {
    forall c, p, r :: IsParent(g, c, p) && IsParent(g, c, r) && g.key(p) == g.key(r) ==>
      g.status(c, p) == g.status(c, r)
  }

  lemma {:induction false} HeardWhere(g: Graph, asked: Probes, c: Fp, p: Fp)
    ensures var r := Heard(g, asked, c, p); r.Some? ==> (c, r.value) in asked && g.key(r.value) == g.key(p)
  {
    if asked != [] {
      HeardWhere(g, asked[..|asked| - 1], c, p);
    }
  }

  /** If the key decides the status, the cache makes no difference. */
  lemma CacheMakesNoDifference(g: Graph, leaf: Fp, maxPathLen: nat)
    requires leaf in g.certs && KeyDecides(g)
    ensures SearchRun(g, leaf, maxPathLen) == SearchOf(g, leaf, maxPathLen)
  {
    var s := SearchRun(g, leaf, maxPathLen);
    RunIsSearch(g, leaf, maxPathLen);
    SearchProbes.ProbesOfSearch(Recalling(g, s.probes), leaf, maxPathLen);
    forall x | x in s.probes ensures g.status(x.0, x.1) == Told(g, s.probes, x.0, x.1) {
      HeardWhere(g, s.probes, x.0, x.1);
      var r := Heard(g, s.probes, x.0, x.1).GetOr(x.1);
      assert (x.0, r) in s.probes;
      assert IsParent(Recalling(g, s.probes), x.0, x.1) && IsParent(Recalling(g, s.probes), x.0, r);
    }
    RunIsSearchOf(g, g, leaf, maxPathLen);
  }
}
