/** What an exploration was told beside its status cache, in terms of the certificates: it finds
    only paths that are fit for some issuer with the right key, and none that is fit for all
    of them escapes it. */
module SeenPaths {
  import opened Basics
  import opened Certificates
  import opened Revocation
  import opened SearchSpec
  import opened SearchPaths
  import opened SearchMemory
  import opened Worlds
  import opened Shrinking
  import opened PathMeaning

  lemma ParentOnGraph(objects: Objects, q: Question, lib: Library, c: Fp, p: Fp)
    requires q.leaf in CertsIn(objects) && IsParent(SeenIn(objects, q, lib), c, p)
    ensures c in CertsIn(objects) && p in CertsIn(objects) && IssuerMatches(CertsIn(objects)[c], CertsIn(objects)[p])
  {
    hide SearchIn;
  }

  /** The issuer that the search first asked about, of those with the key of `p`; its answer is
      what is told of them all. */
  ghost function FirstAsked(objects: Objects, q: Question, lib: Library, c: Fp, p: Fp): Fp
    requires q.leaf in CertsIn(objects)
  {
    Heard(GraphIn(objects, q, lib), SearchIn(objects, q, lib).probes, c, p).GetOr(p)
  }

  /** Well built, and every certificate unrevoked under the first asked of those with the key of
      the next one. */
  ghost predicate PathAsAsked(objects: Objects, q: Question, lib: Library, path: Path)
    requires q.leaf in CertsIn(objects)
  {
    WellBuilt(CertsIn(objects), path, q, lib)
    && forall i: nat :: i + 1 < |path| ==>
         Unrevoked(CertsIn(objects), EvidenceIn(objects, q, lib), path[i],
                   FirstAsked(objects, q, lib, path[i], path[i + 1]))
  }

  /** It is an issuer candidate with the same key, and its answer is what was told. */
  lemma FirstAskedMeans(objects: Objects, q: Question, lib: Library, c: Fp, p: Fp)
    requires q.leaf in CertsIn(objects) && c in CertsIn(objects) && p in CertsIn(objects)
    requires IssuerMatches(CertsIn(objects)[c], CertsIn(objects)[p])
    ensures var r := FirstAsked(objects, q, lib, c, p);
            && StandsIn(CertsIn(objects), c, p, r)
            && (SeenIn(objects, q, lib).status(c, p) == GoodStatus <==>
                  Unrevoked(CertsIn(objects), EvidenceIn(objects, q, lib), c, r))
  {
    hide ConclusionOf, SearchIn, IssuerMatches, Candidate, CertsIn, EvidenceIn, PlainFailure, TerminalFailure,
        LeafFailure, Unrevoked;
    var g, probes := GraphIn(objects, q, lib), SearchIn(objects, q, lib).probes;
    SearchCalls(objects, q, lib);
    HeardWhere(g, probes, c, p);
    var r := FirstAsked(objects, q, lib, c, p);
    if r != p {
      assert (c, r) in probes;
      assert IsParent(SeenIn(objects, q, lib), c, r);
      ParentOnGraph(objects, q, lib, c, r);
    }
    CandidateMeans(CertsIn(objects)[c], CertsIn(objects)[r]);
    UnrevokedMeans(CertsIn(objects), EvidenceIn(objects, q, lib), c, r);
    assert SeenIn(objects, q, lib).status(c, p) == g.status(c, r);
  }

  /** The answer that was given about an edge is the status under some issuer candidate with
      the same key. */
  lemma ToldMeans(objects: Objects, q: Question, lib: Library, c: Fp, p: Fp)
    requires q.leaf in CertsIn(objects) && c in CertsIn(objects) && p in CertsIn(objects)
    requires IssuerMatches(CertsIn(objects)[c], CertsIn(objects)[p])
    ensures var certs, ev := CertsIn(objects), EvidenceIn(objects, q, lib);
            var good := SeenIn(objects, q, lib).status(c, p) == GoodStatus;
            (good ==> UnrevokedForSome(certs, ev, c, p)) && (UnrevokedForAll(certs, ev, c, p) ==> good)
  {
    hide SearchIn, IssuerMatches, CertsIn, EvidenceIn, SeenIn, FirstAsked, Unrevoked;
    FirstAskedMeans(objects, q, lib, c, p);
    assert StandsIn(CertsIn(objects), c, p, FirstAsked(objects, q, lib, c, p));
  }

  /** What the search calls valid is fit for some issuers with the right keys; what is fit for
      all of them, the search calls valid. */
  lemma SeenPathMeans(objects: Objects, q: Question, lib: Library, path: Path)
    requires q.leaf in CertsIn(objects)
    ensures var certs, ev, h := CertsIn(objects), EvidenceIn(objects, q, lib), SeenIn(objects, q, lib);
            && (ValidPath(h, q.leaf, path) ==> FitForSome(certs, ev, path, q, lib))
            && (FitForAll(certs, ev, path, q, lib) ==> ValidPath(h, q.leaf, path))
  {
    hide ValidPath, WellBuilt, CertsIn, EvidenceIn, SearchIn, IssuerMatches, GraphOf, Told, UnrevokedForSome,
        UnrevokedForAll;
    var certs, ev, h := CertsIn(objects), EvidenceIn(objects, q, lib), SeenIn(objects, q, lib);
    SeenIsSearched(objects, q, lib);
    ValidPathMeans(certs, ev, q, lib, h, path);
    if WellBuilt(certs, path, q, lib) {
      WellBuiltInside(certs, path, q, lib);
      forall i: nat | i + 1 < |path|
        ensures h.status(path[i], path[i + 1]) == GoodStatus ==> UnrevokedForSome(certs, ev, path[i], path[i + 1])
        ensures UnrevokedForAll(certs, ev, path[i], path[i + 1]) ==> h.status(path[i], path[i + 1]) == GoodStatus
      {
        ToldMeans(objects, q, lib, path[i], path[i + 1]);
      }
    }
  }

  /** On all certificates, coherent or not: what the search calls valid is what is fit by the
      issuers first asked about. */
  lemma PathAsAskedMeans(objects: Objects, q: Question, lib: Library, path: Path)
    requires q.leaf in CertsIn(objects)
    ensures ValidPath(SeenIn(objects, q, lib), q.leaf, path) <==> PathAsAsked(objects, q, lib, path)
  {
    hide ValidPath, WellBuilt, CertsIn, EvidenceIn, SearchIn, IssuerMatches, GraphOf, Told, Unrevoked, FirstAsked;
    var certs, ev, h := CertsIn(objects), EvidenceIn(objects, q, lib), SeenIn(objects, q, lib);
    SeenIsSearched(objects, q, lib);
    ValidPathMeans(certs, ev, q, lib, h, path);
    if WellBuilt(certs, path, q, lib) {
      WellBuiltInside(certs, path, q, lib);
      forall i: nat | i + 1 < |path|
        ensures h.status(path[i], path[i + 1]) == GoodStatus <==>
                Unrevoked(certs, ev, path[i], FirstAsked(objects, q, lib, path[i], path[i + 1]))
      {
        FirstAskedMeans(objects, q, lib, path[i], path[i + 1]);
      }
    }
  }
}
