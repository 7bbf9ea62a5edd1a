/** A search asks for the status of edges between certificates it has touched, and no others. */
module SearchProbes {
  import opened Basics
  import opened SearchSpec
  import opened SearchPaths

  /** The edge passed the checks made before revocation, on some path. */
  ghost predicate Passed(g: Graph, c: Fp, p: Fp) {
    exists path :: OnGraph(g, path) && Last(path) == c && g.plain(path, p) == None
  }

  ghost predicate ProbesTouched(g: Graph, seen: set<Fp>, probes: seq<(Fp, Fp)>) {
    forall x :: x in probes ==> x.0 in seen && x.1 in seen && IsParent(g, x.0, x.1) && Passed(g, x.0, x.1)
  }

  lemma {:induction false} VisitProbes(g: Graph, path: Path, depth: int)
    requires OnGraph(g, path)
    ensures var v := VisitAt(g, path, depth);
            v.touched <= g.certs && ProbesTouched(g, Elements(path) + v.touched, v.probes)
    decreases g.certs - Elements(path), 2, 0
  {
    if Last(path) !in g.anchors {
      TriedProbes(g, path, Open(g, path), |Open(g, path)|, depth);
    }
  }

  lemma JoinProbes(g: Graph, seen: set<Fp>, a: Visit, b: Visit)
    requires ProbesTouched(g, seen + a.touched, a.probes) && ProbesTouched(g, seen + b.touched, b.probes)
    ensures ProbesTouched(g, seen + Join(a, b).touched, Join(a, b).probes)
  {
    hide IsParent, Passed;
  }

  lemma {:induction false} TriedProbes(g: Graph, path: Path, parents: seq<Fp>, n: nat, depth: int)
    requires OnGraph(g, path) && n <= |parents|
    requires forall p :: p in parents ==> p in g.certs && IsParent(g, Last(path), p) && p !in path
    ensures var v := Tried(g, path, parents, n, depth);
            v.touched <= g.certs && ProbesTouched(g, Elements(path) + v.touched, v.probes)
    decreases g.certs - Elements(path), 1, n
  {
    hide Try, ProbesTouched;
    if n > 0 {
      TriedProbes(g, path, parents, n - 1, depth);
      TryProbes(g, path, parents[n - 1], depth);
      JoinProbes(g, Elements(path), Tried(g, path, parents, n - 1, depth), Try(g, path, parents[n - 1], depth));
    } else {
      NoProbes(g, Elements(path));
    }
  }

  lemma NoProbes(g: Graph, seen: set<Fp>)
    ensures ProbesTouched(g, seen + {}, [])
  {
  }

  lemma {:induction false} TryProbes(g: Graph, path: Path, p: Fp, depth: int)
    requires OnGraph(g, path) && IsParent(g, Last(path), p) && p !in path
    ensures var v := Try(g, path, p, depth);
            v.touched <= g.certs && ProbesTouched(g, Elements(path) + v.touched, v.probes)
    decreases g.certs - Elements(path), 0, 0
  {
    hide VisitAt, CanReach, EdgeFailure;
    Smaller(g, path, p);
    assert g.plain(path, p) == None ==> Passed(g, Last(path), p);
    var next := path + [p];
    VisitProbes(g, next, depth - 1);
    var v := VisitAt(g, next, depth - 1);
    assert Elements(next) + v.touched == Elements(path) + ({p} + v.touched);
  }

  lemma {:induction false} RoundsProbes(g: Graph, leaf: Fp, n: nat)
    requires leaf in g.certs
    ensures var r := Rounds(g, leaf, n);
            leaf in r.touched && r.touched <= g.certs && ProbesTouched(g, r.touched, r.probes)
  {
    if n > 0 {
      RoundsProbes(g, leaf, n - 1);
      VisitProbes(g, [leaf], n);
    }
  }

  lemma ProbesOfSearch(g: Graph, leaf: Fp, maxPathLen: nat)
    requires leaf in g.certs
    ensures var s := SearchOf(g, leaf, maxPathLen);
            leaf in s.touched && s.touched <= g.certs && ProbesTouched(g, s.touched, s.probes)
  {
    RoundsProbes(g, leaf, maxPathLen);
    VisitProbes(g, [leaf], maxPathLen);
  }

  // ----- Every step of a path that is found has been asked about ------------------------------

  ghost predicate StepsAsked(v: Visit, from: nat) {
    v.found.Some? ==>
      forall i: nat :: from <= i && i + 1 < |v.found.value| ==> (v.found.value[i], v.found.value[i + 1]) in v.probes
  }

  lemma {:induction false} VisitAsks(g: Graph, path: Path, depth: int)
    requires OnGraph(g, path)
    ensures var v := VisitAt(g, path, depth);
            (v.found.Some? ==> Extends(v.found.value, path)) && StepsAsked(v, |path| - 1)
    decreases g.certs - Elements(path), 2, 0
  {
    if Last(path) !in g.anchors {
      TriedAsks(g, path, Open(g, path), |Open(g, path)|, depth);
    }
  }

  lemma {:induction false} TriedAsks(g: Graph, path: Path, parents: seq<Fp>, n: nat, depth: int)
    requires OnGraph(g, path) && n <= |parents|
    requires forall p :: p in parents ==> p in g.certs && p !in path
    ensures var v := Tried(g, path, parents, n, depth);
            (v.found.Some? ==> Extends(v.found.value, path)) && StepsAsked(v, |path| - 1)
    decreases g.certs - Elements(path), 1, n
  {
    if n > 0 {
      TriedAsks(g, path, parents, n - 1, depth);
      TryAsks(g, path, parents[n - 1], depth);
    }
  }

  lemma {:induction false} TryAsks(g: Graph, path: Path, p: Fp, depth: int)
    requires OnGraph(g, path) && p in g.certs && p !in path
    ensures var v := Try(g, path, p, depth);
            (v.found.Some? ==> Extends(v.found.value, path)) && StepsAsked(v, |path| - 1)
    decreases g.certs - Elements(path), 0, 0
  {
    Smaller(g, path, p);
    var next := path + [p];
    VisitAsks(g, next, depth - 1);
    var v := Try(g, path, p, depth);
    if v.found.Some? {
      var q := v.found.value;
      assert q[..|next|] == next;
      assert q[..|path|] == next[..|path|] == path;
      assert q[|path|] == next[|path|] && q[|path| - 1] == next[|path| - 1];
    }
  }

  lemma {:induction false} RoundsAsk(g: Graph, leaf: Fp, n: nat)
    requires leaf in g.certs
    ensures StepsAsked(Rounds(g, leaf, n), 0)
  {
    if n > 0 {
      RoundsAsk(g, leaf, n - 1);
      VisitAsks(g, [leaf], n);
    }
  }

  lemma FoundIsAsked(g: Graph, leaf: Fp, maxPathLen: nat)
    requires leaf in g.certs
    ensures var s := SearchOf(g, leaf, maxPathLen);
            s.path.Some? ==>
              forall i: nat :: i + 1 < |s.path.value| ==> (s.path.value[i], s.path.value[i + 1]) in s.probes
  {
    RoundsAsk(g, leaf, maxPathLen);
  }
}
