/** What shrinking preserves: the path and the budget, and the whole outcome of a second run on
    the objects the loop settled on. */
module Settling {
  import opened Basics
  import opened Certificates
  import opened Revocation
  import opened RevocationViews
  import opened RevocationLedger
  import opened RevocationAccounting
  import opened SearchSpec
  import opened SearchMemory
  import opened SearchShrink
  import MemoryShrink
  import SearchProbes
  import opened Worlds
  import opened Shrinking

  // ----- Fewer objects make a smaller graph ---------------------------------------------

  ghost predicate Within(a: map<Fp, Cert>, b: map<Fp, Cert>) {
    forall fp :: fp in a ==> fp in b && a[fp] == b[fp]
  }

  lemma RestrictedCerts(objects: Objects, keep: set<Fp>)
    ensures Within(CertsIn(Restrict(objects, keep)), CertsIn(objects))
    ensures forall fp :: fp in CertsIn(Restrict(objects, keep)) <==> fp in CertsIn(objects) && fp in keep
  {
  }

  lemma RestrictedEvidence(objects: Objects, keep: set<Fp>, q: Question, lib: Library)
    ensures EvidenceIn(Restrict(objects, keep), q, lib) == RestrictEvidence(EvidenceIn(objects, q, lib), keep)
  {
    var a, b := EvidenceIn(Restrict(objects, keep), q, lib), RestrictEvidence(EvidenceIn(objects, q, lib), keep);
    assert a.crls == b.crls;
    assert a.ocsps == b.ocsps;
  }

  lemma {:induction false} BelowSame(small: map<Fp, Cert>, certs: map<Fp, Cert>, path: Path, n: nat)
    requires Within(small, certs) && n <= |path| && forall x :: x in path ==> x in small
    ensures BelowCount(small, path, n) == BelowCount(certs, path, n)
  {
    if n > 0 {
      BelowSame(small, certs, path, n - 1);
    }
  }

  lemma PlainSame(small: map<Fp, Cert>, certs: map<Fp, Cert>, at: Instant, path: Path, p: Fp)
    requires Within(small, certs) && AllIn(small, path) && p in small
    ensures PlainFailure(small, at, path, p) == PlainFailure(certs, at, path, p)
  {
    BelowSame(small, certs, path, |path|);
  }

  lemma AlongSame(small: map<Fp, Cert>, certs: map<Fp, Cert>, path: Path)
    requires Within(small, certs) && forall x :: x in path ==> x in small
    ensures CertsAlong(small, path) == CertsAlong(certs, path)
  {
  }

  /** Leaving out certificates and evidence leaves out vertices of the graph, no more. */
  lemma FewerObjectsSubGraph(small: map<Fp, Cert>, certs: map<Fp, Cert>, narrow: Evidence, ev: Evidence, q: Question,
          lib: Library)
    requires Within(small, certs)
    ensures SubGraph(GraphOf(small, narrow, q, lib), GraphOf(certs, ev, q, lib))
  {
    hide TerminalFailure, PlainFailure, CertsAlong, LeafFailure, IssuerMatches;
    var h, g := GraphOf(small, narrow, q, lib), GraphOf(certs, ev, q, lib);
    forall path, p | OnGraph(h, path) && p in h.certs ensures h.plain(path, p) == g.plain(path, p) {
      PlainSame(small, certs, q.signedAt, path, p);
    }
    forall path | OnGraph(h, path) ensures h.terminal(path) == g.terminal(path) {
      AlongSame(small, certs, path);
    }
  }

  // ----- One turn of the loop -----------------------------------------------------------

  /** Every status the search asked for would be found the same on the touched objects alone. */
  lemma StatusKept(objects: Objects, q: Question, lib: Library, c: Fp, p: Fp)
    requires q.leaf in CertsIn(objects) && (c, p) in SearchIn(objects, q, lib).probes
    ensures GraphIn(Restrict(objects, TouchedIn(objects, q, lib)), q, lib).status(c, p)
        == GraphIn(objects, q, lib).status(c, p)
  {
    hide SearchRun, Relevant, AskedAll, ConclusionOf;
    var keep := TouchedIn(objects, q, lib);
    var certs, ev := CertsIn(objects), EvidenceIn(objects, q, lib);
    ProbesCovered(objects, q, lib, c, p);
    RestrictedCerts(objects, keep);
    RestrictedEvidence(objects, keep, q, lib);
    var auth := AuthorityOf(certs[p]);
    RelevantIsEvidence(ev, certs[c], auth);
    EvidenceIsObjects(objects, q, lib);
    RelevantEvidenceSuffices(ev, keep, certs[c], auth);
  }

  lemma RelevantIsEvidence(ev: Evidence, cert: Cert, auth: Authority)
    ensures Relevant(ev, cert, auth) <= ev.crls.Keys + ev.ocsps.Keys
  {
  }

  lemma EvidenceIsObjects(objects: Objects, q: Question, lib: Library)
    ensures EvidenceIn(objects, q, lib).crls.Keys <= objects.Keys
        && EvidenceIn(objects, q, lib).ocsps.Keys <= objects.Keys
  {
  }

  lemma CoherentDecides(certs: map<Fp, Cert>, ev: Evidence, q: Question, lib: Library)
    requires Coherent(certs)
    ensures KeyDecides(GraphOf(certs, ev, q, lib))
  {
    hide ConclusionOf, PlainFailure, TerminalFailure, LeafFailure;
    var g := GraphOf(certs, ev, q, lib);
    forall c, p, r | IsParent(g, c, p) && IsParent(g, c, r) && g.key(p) == g.key(r)
      ensures g.status(c, p) == g.status(c, r)
    {
      assert certs[c] in certs.Values && certs[p] in certs.Values && certs[r] in certs.Values;
      assert SameQuestion(certs[c], certs[p], certs[r]);
      assert AuthorityOf(certs[p]) == AuthorityOf(certs[r]);
    }
  }

  /** On coherent certificates an exploration is the simple search of the objects' own graph. */
  lemma CoherentSearch(objects: Objects, q: Question, lib: Library)
    requires q.leaf in CertsIn(objects) && Coherent(CertsIn(objects))
    ensures q.leaf in GraphIn(objects, q, lib).certs
    ensures SearchIn(objects, q, lib) == SearchOf(GraphIn(objects, q, lib), q.leaf, MAX_PATH_LEN)
  {
    hide SearchRun, SearchOf, Coherent;
    CoherentDecides(CertsIn(objects), EvidenceIn(objects, q, lib), q, lib);
    CacheMakesNoDifference(GraphIn(objects, q, lib), q.leaf, MAX_PATH_LEN);
  }

  /** Exploring only what an exploration touched gives the same path or again none, at no
      greater cost; and if all of it was explored, so is the rest. */
  lemma OneTurn(objects: Objects, q: Question, lib: Library)
    requires q.leaf in CertsIn(objects)
    ensures var less := Restrict(objects, TouchedIn(objects, q, lib));
            && q.leaf in CertsIn(less)
            && SearchIn(less, q, lib).path == SearchIn(objects, q, lib).path
            && SearchIn(less, q, lib).spent <= SearchIn(objects, q, lib).spent
            && SearchIn(less, q, lib).touched <= SearchIn(objects, q, lib).touched
            && (Finished(SearchIn(objects, q, lib)) ==> Finished(SearchIn(less, q, lib)))
  {
    hide SearchRun, LedgerIn, GraphOf, EvidenceIn, CertsIn;
    var keep := TouchedIn(objects, q, lib);
    var less := Restrict(objects, keep);
    var h, g := GraphIn(less, q, lib), GraphIn(objects, q, lib);
    RestrictedCerts(objects, keep);
    FewerObjectsSubGraph(CertsIn(less), CertsIn(objects), EvidenceIn(less, q, lib), EvidenceIn(objects, q, lib), q,
        lib);
    TouchedCertsKept(objects, q, lib);
    GraphCerts(objects, q, lib);
    GraphCerts(less, q, lib);
    forall x | x in SearchIn(objects, q, lib).probes ensures h.status(x.0, x.1) == g.status(x.0, x.1) {
      StatusKept(objects, q, lib, x.0, x.1);
    }
    MemoryShrink.RunShrinks(h, g, q.leaf, MAX_PATH_LEN);
  }

  lemma GraphCerts(objects: Objects, q: Question, lib: Library)
    ensures GraphIn(objects, q, lib).certs == CertsIn(objects).Keys
  {
  }

  /** The search ended with a path or with a complete proof. */
  predicate Finished(s: Search) {
    s.proof == None || s.proof.value.complete
  }

  lemma TouchedCertsKept(objects: Objects, q: Question, lib: Library)
    requires q.leaf in CertsIn(objects)
    ensures SearchIn(objects, q, lib).touched <= GraphIn(Restrict(objects, TouchedIn(objects, q, lib)), q, lib).certs
    ensures q.leaf in TouchedIn(objects, q, lib) && q.leaf in SearchIn(objects, q, lib).touched
  {
    hide SearchRun, SearchOf, LedgerIn, Told;
    SeenIsSearched(objects, q, lib);
    SearchProbes.ProbesOfSearch(SeenIn(objects, q, lib), q.leaf, MAX_PATH_LEN);
    RestrictedCerts(objects, TouchedIn(objects, q, lib));
  }

  // ----- The whole loop ---------------------------------------------------------------------

  /** What the loop settles on is a part of the objects that touches all of itself, and the loop
      settles on it at once when it starts there: the last turn is repeated. */
  lemma {:induction false} SettlingIsStable(objects: Objects, q: Question, lib: Library)
    requires q.leaf in CertsIn(objects)
    ensures var settled := Settle(objects, q, lib);
            settled.Some? ==>
              var final := settled.value;
              && final.Keys <= objects.Keys && final == Restrict(objects, final.Keys)
              && q.leaf in CertsIn(final)
              && TouchedIn(final, q, lib) == final.Keys
              && SearchIn(final, q, lib).spent <= MAX_EXPLORED_BRANCHES
              && Settle(final, q, lib) == Some(final)
    decreases |objects.Keys|
  {
    hide SearchIn, TouchedIn, LedgerIn, CertsIn;
    var touched := TouchedIn(objects, q, lib);
    RestrictKeys(objects, touched);
    assert Restrict(objects, objects.Keys) == objects;
    if SearchIn(objects, q, lib).spent <= MAX_EXPLORED_BRANCHES && touched != objects.Keys {
      TouchedWithin(objects, q, lib);
      ProperSubsetSmaller(Restrict(objects, touched).Keys, objects.Keys);
      LeafTouched(objects, q, lib);
      SettlingIsStable(Restrict(objects, touched), q, lib);
      if Settle(objects, q, lib).Some? {
        var final := Settle(objects, q, lib).value;
        assert Restrict(Restrict(objects, touched), final.Keys) == Restrict(objects, final.Keys);
      }
    }
  }

  lemma LeafTouched(objects: Objects, q: Question, lib: Library)
    requires q.leaf in CertsIn(objects)
    ensures q.leaf in CertsIn(Restrict(objects, TouchedIn(objects, q, lib)))
  {
    hide SearchIn, LedgerIn;
  }

  /** The loop runs out of budget only in its first turn, and the path found in the first turn is
      the path found in the last; none is found later that was not found at first. An
      exploration that was complete stays so. */
  lemma {:induction false} SettlingKeepsThePath(objects: Objects, q: Question, lib: Library)
    requires q.leaf in CertsIn(objects)
    ensures var settled := Settle(objects, q, lib);
            && (settled == None <==> SearchIn(objects, q, lib).spent > MAX_EXPLORED_BRANCHES)
            && (settled.Some? ==>
                  var final := settled.value;
                  && q.leaf in CertsIn(final)
                  && SearchIn(final, q, lib).path == SearchIn(objects, q, lib).path
                  && (Finished(SearchIn(objects, q, lib)) ==> Finished(SearchIn(final, q, lib))))
    decreases |objects.Keys|
  {
    hide SearchIn, TouchedIn, LedgerIn, CertsIn, Finished;
    var touched := TouchedIn(objects, q, lib);
    if SearchIn(objects, q, lib).spent <= MAX_EXPLORED_BRANCHES && touched != objects.Keys {
      OneTurn(objects, q, lib);
      TouchedWithin(objects, q, lib);
      RestrictKeys(objects, touched);
      ProperSubsetSmaller(Restrict(objects, touched).Keys, objects.Keys);
      SettlingKeepsThePath(Restrict(objects, touched), q, lib);
    }
  }

  lemma TouchedWithin(objects: Objects, q: Question, lib: Library)
    requires q.leaf in CertsIn(objects)
    ensures TouchedIn(objects, q, lib) <= objects.Keys
  {
  }
}
