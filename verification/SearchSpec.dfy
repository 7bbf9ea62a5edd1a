/** Path search over a certificate graph (app/graph.py), as a function of the graph:
    what one visit of a partial path finds, touches, asks, spends and records. */
module SearchSpec {
  import opened Basics
  import opened Certificates

  type Path = seq<Fp>

  /** A graph as the search sees it: the certificates at hand, the trust anchors, the issuer
      candidates of a certificate, the checks on a leaf, the edge checks made before
      revocation, the revocation status of a certificate under an issuer, the key of an
      issuer, and the rules on a whole path. */
  datatype Graph = Graph(
    certs: set<Fp>, anchors: set<Fp>,
    parents: Fp -> set<Fp>,
    leafCheck: Fp -> Option<Failure>,
    plain: (Path, Fp) -> Option<Failure>,
    status: (Fp, Fp) -> Status,
    key: Fp -> Key,
    terminal: Path -> Option<Failure>)

  datatype Branch = Branch(path: Path, failure: Failure)

  ghost predicate OnGraph(g: Graph, path: Path) {
    |path| > 0 && forall x :: x in path ==> x in g.certs
  }

  function Last(path: Path): Fp
    requires |path| > 0
  {
    path[|path| - 1]
  }

  // ----- Edges -------------------------------------------------------------------

  predicate IsParent(g: Graph, c: Fp, p: Fp) {
    c in g.certs && p in g.certs && p in g.parents(c)
  }

  /** The issuer candidates of the path's last certificate that are not on the path, in order. */
  function Open(g: Graph, path: Path): (r: seq<Fp>)
    requires |path| > 0
    ensures StrictlyAscending(r)
    ensures forall p :: p in r <==> IsParent(g, Last(path), p) && p !in path
  {
    Ascending(set p | p in g.certs && IsParent(g, Last(path), p) && p !in path)
  }

  function EdgeFailure(g: Graph, path: Path, p: Fp): Option<Failure>
    requires |path| > 0
  {
    var f := g.plain(path, p);
    if f.Some? then f
    else if g.status(Last(path), p) != GoodStatus then
      Some(Failure(Last(path), RevocationNotGood(g.status(Last(path), p))))
    else None
  }

  // ----- Reaching an anchor ---------------------------------------------------------

  /** A chain of issuer edges, cycles and intermediate anchors allowed. */
  ghost predicate Chain(g: Graph, chain: Path) {
    OnGraph(g, chain) && forall i :: 0 <= i < |chain| - 1 ==> IsParent(g, chain[i], chain[i + 1])
  }

  ghost predicate CanReach(g: Graph, p: Fp) {
    exists chain :: Chain(g, chain) && chain[0] == p && Last(chain) in g.anchors
  }

  lemma ChildReaches(g: Graph, c: Fp, p: Fp)
    requires CanReach(g, p) && IsParent(g, c, p)
    ensures CanReach(g, c)
  {
    var chain :| Chain(g, chain) && chain[0] == p && Last(chain) in g.anchors;
    var longer := [c] + chain;
    assert Chain(g, longer) && longer[0] == c && Last(longer) == Last(chain);
  }

  // ----- Visits ---------------------------------------------------------------------

  /** `probes` lists the certificate and issuer pairs whose revocation status was asked. */
  datatype Visit = Visit(
    found: Option<Path>, cutoff: bool, touched: set<Fp>, probes: seq<(Fp, Fp)>,
    spent: nat, branches: seq<Branch>)

  function Join(a: Visit, b: Visit): Visit {
    Visit(b.found, a.cutoff || b.cutoff, a.touched + b.touched, a.probes + b.probes,
          a.spent + b.spent, a.branches + b.branches)
  }

  function Spend(n: nat): Visit {
    Visit(None, false, {}, [], n, [])
  }

  function Reject(path: Path, f: Failure): Visit {
    Visit(None, false, {}, [], 0, [Branch(path, f)])
  }

  /** `_dfs` at a partial path, with `depth` non-anchor certificates left to enter. */
  ghost function VisitAt(g: Graph, path: Path, depth: int): Visit
    requires OnGraph(g, path)
    decreases g.certs - Elements(path), 2, 0
  {
    if Last(path) in g.anchors then
      match g.terminal(path)
      case None => Visit(Some(path), false, {}, [], 1, [])
      case Some(f) => Join(Spend(1), Reject(path, f))
    else
      var parents := Open(g, path);
      if parents == [] then Join(Spend(1), Reject(path, Failure(Last(path), NoIssuer)))
      else Join(Spend(1), Tried(g, path, parents, |parents|, depth))
  }

  /** The first `n` candidates tried in order, up to the first that leads to a path. */
  ghost function Tried(g: Graph, path: Path, parents: seq<Fp>, n: nat, depth: int): Visit
    requires OnGraph(g, path) && n <= |parents|
    requires forall p :: p in parents ==> p in g.certs && p !in path
    decreases g.certs - Elements(path), 1, n
  {
    if n == 0 then Spend(0)
    else
      var before := Tried(g, path, parents, n - 1, depth);
      if before.found.Some? then before else Join(before, Try(g, path, parents[n - 1], depth))
  }

  /** What a turn has done by the time the edge is checked. */
  function Entered(g: Graph, path: Path, p: Fp): Visit
    requires |path| > 0
  {
    Visit(None, false, {p}, if g.plain(path, p) == None then [(Last(path), p)] else [], 1, [])
  }

  /** One candidate: the edge is checked, and if it holds the search goes on from there,
      unless no anchor can be reached or the depth is used up. */
  ghost function Try(g: Graph, path: Path, p: Fp, depth: int): Visit
    requires OnGraph(g, path) && p in g.certs && p !in path
    decreases g.certs - Elements(path), 0, 0
  {
    Smaller(g, path, p);
    var here := Entered(g, path, p);
    var failure := EdgeFailure(g, path, p);
    if failure.Some? then Join(here, Reject(path + [p], failure.value))
    else if p in g.anchors then Join(here, VisitAt(g, path + [p], depth - 1))
    else if !CanReach(g, p) then Join(here, Reject(path + [p], Failure(p, NoTrustedAnchor)))
    else if depth <= 1 then here.(cutoff := true)
    else Join(here, VisitAt(g, path + [p], depth - 1))
  }

  /** The certificates not on the path become fewer with every step. */
  lemma Smaller(g: Graph, path: Path, p: Fp)
    requires p in g.certs && p !in path
    ensures g.certs - Elements(path + [p]) < g.certs - Elements(path)
  {
    assert p in Elements(path + [p]);
    assert forall x :: x in path ==> x in path + [p];
    assert p in g.certs - Elements(path);
  }

  // ----- The whole search --------------------------------------------------------------

  datatype Proof = Proof(complete: bool, branches: seq<Branch>)

  datatype Search = Search(
    path: Option<Path>, proof: Option<Proof>, touched: set<Fp>, probes: seq<(Fp, Fp)>, spent: nat)

  /** The deepening rounds up to depth `n`; they end with a path or a depth nothing was cut off at. */
  ghost function Rounds(g: Graph, leaf: Fp, n: nat): Visit
    requires leaf in g.certs
  {
    if n == 0 then Visit(None, true, {leaf}, [], 0, [])
    else
      var before := Rounds(g, leaf, n - 1);
      if before.found.Some? || !before.cutoff then before
      else
        var v := VisitAt(g, [leaf], n);
        Visit(v.found, v.cutoff, before.touched + v.touched, before.probes + v.probes, before.spent + v.spent, [])
  }

  /** `Explorer.search`: the leaf's own checks, the rounds, and a last visit that records branches. */
  ghost function SearchOf(g: Graph, leaf: Fp, maxPathLen: nat): Search
    requires leaf in g.certs
  {
    var f := g.leafCheck(leaf);
    if f.Some? then Search(None, Some(Proof(true, [Branch([leaf], f.value)])), {leaf}, [], 0)
    else
      var r := Rounds(g, leaf, maxPathLen);
      if r.found.Some? then Search(r.found, None, r.touched, r.probes, r.spent)
      else
        var v := VisitAt(g, [leaf], maxPathLen);
        Search(None, Some(Proof(!(r.cutoff || v.cutoff), v.branches)),
               r.touched + v.touched, r.probes + v.probes, r.spent + v.spent)
  }
}
