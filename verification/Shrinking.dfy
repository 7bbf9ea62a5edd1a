/** The shrinking loop of the engine (app/adjudicate.py, `explore_once` and `run`) as a
    function of the objects: what one exploration touches, and the set the loop settles on. */
module Shrinking {
  import opened Basics
  import opened Certificates
  import opened Revocation
  import opened RevocationViews
  import opened RevocationLedger
  import opened RevocationAccounting
  import opened SearchSpec
  import opened SearchMemory
  import opened SearchProbes
  import opened Worlds
  import opened Explorers

  const MAX_PATH_LEN: nat := 32
  const MAX_EXPLORED_BRANCHES: nat := 65536

  // ----- One exploration ---------------------------------------------------------------

  ghost function GraphIn(objects: Objects, q: Question, lib: Library): Graph {
    GraphOf(CertsIn(objects), EvidenceIn(objects, q, lib), q, lib)
  }

  ghost function SearchIn(objects: Objects, q: Question, lib: Library): Search
    requires q.leaf in CertsIn(objects)
  {
    SearchRun(GraphIn(objects, q, lib), q.leaf, MAX_PATH_LEN)
  }

  /** The graph with the statuses that the exploration was told. */
  ghost function SeenIn(objects: Objects, q: Question, lib: Library): Graph
    requires q.leaf in CertsIn(objects)
  {
    Recalling(GraphIn(objects, q, lib), SearchIn(objects, q, lib).probes)
  }

  /** An exploration is the simple search of the graph it saw, which is the graph of the objects
      but for the statuses. */
  lemma SeenIsSearched(objects: Objects, q: Question, lib: Library)
    requires q.leaf in CertsIn(objects)
    ensures q.leaf in SeenIn(objects, q, lib).certs && SeenIn(objects, q, lib).certs == CertsIn(objects).Keys
    ensures SearchOf(SeenIn(objects, q, lib), q.leaf, MAX_PATH_LEN) == SearchIn(objects, q, lib)
    ensures Restated(SeenIn(objects, q, lib), GraphIn(objects, q, lib))
    ensures SeenIn(objects, q, lib).leafCheck(q.leaf) == LeafFailure(CertsIn(objects)[q.leaf], q.signedAt)
  {
    hide SearchRun, SearchOf;
    RunIsSearch(GraphIn(objects, q, lib), q.leaf, MAX_PATH_LEN);
  }

  ghost function LedgerIn(objects: Objects, q: Question, lib: Library): Ledger
    requires q.leaf in CertsIn(objects)
  {
    BooksAfter(CertsIn(objects), EvidenceIn(objects, q, lib), SearchIn(objects, q, lib).probes)
  }

  ghost function TouchedIn(objects: Objects, q: Question, lib: Library): set<Fp>
    requires q.leaf in CertsIn(objects)
  {
    (SearchIn(objects, q, lib).touched + LedgerIn(objects, q, lib).touched + {q.leaf}) * objects.Keys
  }

  // ----- The loop -------------------------------------------------------------------------

  function Restrict(objects: Objects, keep: set<Fp>): Objects {
    map fp | fp in objects && fp in keep :: objects[fp]
  }

  lemma RestrictKeys(objects: Objects, keep: set<Fp>)
    ensures Restrict(objects, keep).Keys == objects.Keys * keep
  {
  }

  /** Explores, keeps what was touched, and repeats until nothing is left out; `None` when
      an exploration exceeds the budget. */
  ghost function Settle(objects: Objects, q: Question, lib: Library): (final: Option<Objects>)
    requires q.leaf in CertsIn(objects)
    ensures final.Some? ==> q.leaf in CertsIn(final.value) && final.value.Keys <= objects.Keys
    decreases |objects.Keys|
  {
    if SearchIn(objects, q, lib).spent > MAX_EXPLORED_BRANCHES then None
    else
      var touched := TouchedIn(objects, q, lib);
      if touched == objects.Keys then Some(objects)
      else
        TurnShrinks(objects, touched, q.leaf);
        Settle(Restrict(objects, touched), q, lib)
  }

  lemma TurnShrinks(objects: Objects, touched: set<Fp>, leaf: Fp)
    requires touched <= objects.Keys && touched != objects.Keys && leaf in CertsIn(objects) && leaf in touched
    ensures Restrict(objects, touched).Keys <= objects.Keys && |Restrict(objects, touched).Keys| < |objects.Keys|
    ensures leaf in CertsIn(Restrict(objects, touched))
  {
    RestrictKeys(objects, touched);
    ProperSubsetSmaller(Restrict(objects, touched).Keys, objects.Keys);
  }

  lemma ProperSubsetSmaller(a: set<Fp>, b: set<Fp>)
    requires a < b
    ensures |a| < |b|
  {
    var x :| x in b && x !in a;
    assert a <= b - {x};
    SubsetSize(a, b - {x});
  }

  lemma {:induction false} SubsetSize(a: set<Fp>, b: set<Fp>)
    requires a <= b
    ensures |a| <= |b|
  {
    if a != {} {
      var x :| x in a;
      SubsetSize(a - {x}, b - {x});
    }
  }

  // ----- What an evaluator has answered, it has touched the evidence for ---------------------

  ghost predicate Covers(ev: Evidence, l: Ledger, certs: set<Cert>) {
    forall c, i :: c in certs && i in certs && IssuerMatches(c, i) && (c.fp, i.key) in l.cache ==>
      Relevant(ev, c, AuthorityOf(i)) <= l.touched
  }

  lemma AskedCovers(ev: Evidence, l: Ledger, cert: Cert, issuer: Cert, certs: set<Cert>)
    requires Identified(certs) && cert in certs && issuer in certs && IssuerMatches(cert, issuer)
    requires Covers(ev, l, certs)
    ensures Covers(ev, Asked(ev, l, cert, issuer), certs)
    ensures (cert.fp, issuer.key) in Asked(ev, l, cert, issuer).cache
  {
    hide Relevant, ConclusionOf, SelectedView;
    var after := Asked(ev, l, cert, issuer);
    forall c, i | c in certs && i in certs && IssuerMatches(c, i) && (c.fp, i.key) in after.cache
      ensures Relevant(ev, c, AuthorityOf(i)) <= after.touched
    {
      if (c.fp, i.key) !in l.cache {
        assert c == cert;
        RelevantOfKey(ev, c, AuthorityOf(i), AuthorityOf(issuer));
      }
    }
  }

  lemma {:induction false} AskedAllCovers(ev: Evidence, calls: seq<(Cert, Cert)>, certs: set<Cert>)
    requires Identified(certs) && AllAmong(calls, certs)
    ensures var l := AskedAll(ev, BLANK, calls);
            Covers(ev, l, certs) && forall k :: 0 <= k < |calls| ==> (calls[k].0.fp, calls[k].1.key) in l.cache
  {
    hide Relevant, ConclusionOf, SelectedView, Asked;
    if calls != [] {
      var n := |calls| - 1;
      AskedAllCovers(ev, calls[..n], certs);
      var l := AskedAll(ev, BLANK, calls[..n]);
      AskedCovers(ev, l, calls[n].0, calls[n].1, certs);
      AskedKeepsCache(ev, l, calls[n].0, calls[n].1);
      forall k | 0 <= k < n ensures (calls[k].0.fp, calls[k].1.key) in Asked(ev, l, calls[n].0, calls[n].1).cache {
        assert calls[..n][k] == calls[k];
      }
    }
  }

  lemma AskedKeepsCache(ev: Evidence, l: Ledger, cert: Cert, issuer: Cert)
    ensures forall k :: k in l.cache ==> k in Asked(ev, l, cert, issuer).cache
  {
  }

  lemma CertsIdentified(certs: map<Fp, Cert>)
    requires OwnNames(certs)
    ensures Identified(certs.Values)
  {
  }

  lemma {:induction false} CallsOfProbes(certs: map<Fp, Cert>, probes: seq<(Fp, Fp)>)
    requires forall x :: x in probes ==> x.0 in certs && x.1 in certs && IssuerMatches(certs[x.0], certs[x.1])
    ensures |CallsOf(certs, probes)| == |probes|
    ensures forall k :: 0 <= k < |probes| ==> CallsOf(certs, probes)[k] == (certs[probes[k].0], certs[probes[k].1])
    ensures AllAmong(CallsOf(certs, probes), certs.Values)
  {
    if probes != [] {
      var n := |probes| - 1;
      CallsOfProbes(certs, probes[..n]);
      assert forall k :: 0 <= k < n ==> probes[..n][k] == probes[k];
      assert probes[n] in probes;
    }
  }

  /** The probes of a search as the status calls they stand for. */
  lemma SearchCalls(objects: Objects, q: Question, lib: Library)
    requires q.leaf in CertsIn(objects)
    ensures var certs, probes := CertsIn(objects), SearchIn(objects, q, lib).probes;
            var calls := CallsOf(certs, probes);
            && (forall x :: x in probes ==> x.0 in certs && x.1 in certs)
            && |calls| == |probes| && AllAmong(calls, certs.Values)
            && (forall k :: 0 <= k < |probes| ==> calls[k] == (certs[probes[k].0], certs[probes[k].1]))
    ensures ProbesTouched(SeenIn(objects, q, lib), SearchIn(objects, q, lib).touched, SearchIn(objects, q, lib).probes)
  {
    hide SearchOf, SearchRun, PlainFailure, TerminalFailure, LeafFailure, StatusIn, Passed, Told;
    var certs, g, s := CertsIn(objects), SeenIn(objects, q, lib), SearchIn(objects, q, lib);
    SeenIsSearched(objects, q, lib);
    ProbesOfSearch(g, q.leaf, MAX_PATH_LEN);
    forall x | x in s.probes ensures x.0 in certs && x.1 in certs && IssuerMatches(certs[x.0], certs[x.1]) {
      assert IsParent(g, x.0, x.1);
    }
    CallsOfProbes(certs, s.probes);
  }

  lemma CertsAreObjects(objects: Objects)
    ensures CertsIn(objects).Keys <= objects.Keys
  {
  }

  /** All evidence that bears on a status the search asked for has been touched. */
  lemma ProbesCovered(objects: Objects, q: Question, lib: Library, c: Fp, p: Fp)
    requires q.leaf in CertsIn(objects) && (c, p) in SearchIn(objects, q, lib).probes
    ensures c in TouchedIn(objects, q, lib) && p in TouchedIn(objects, q, lib)
    ensures c in CertsIn(objects) && p in CertsIn(objects)
    ensures Relevant(EvidenceIn(objects, q, lib), CertsIn(objects)[c], AuthorityOf(CertsIn(objects)[p]))
              <= LedgerIn(objects, q, lib).touched
  {
    hide SearchRun, Relevant, AskedAll, GraphOf, Passed, CertsIn;
    var certs, ev, probes := CertsIn(objects), EvidenceIn(objects, q, lib), SearchIn(objects, q, lib).probes;
    CertsAreObjects(objects);
    SearchCalls(objects, q, lib);
    var calls := CallsOf(certs, probes);
    CertsIdentified(certs);
    AskedAllCovers(ev, calls, certs.Values);
    var k :| 0 <= k < |probes| && probes[k] == (c, p);
    assert calls[k] == (certs[c], certs[p]);
    assert certs[c] in certs.Values && certs[p] in certs.Values;
  }

  // ----- What the books say, the search was told ---------------------------------------------

  /** The cached outcome for a question has the status that is given in answer to it. */
  lemma {:induction false} BooksTell(certs: map<Fp, Cert>, ev: Evidence, g: Graph, probes: Probes, c: Fp, p: Fp)
    requires OwnNames(certs) && c in certs && p in certs
    requires forall x :: x in probes ==> x.0 in certs && x.1 in certs
    requires forall d, i :: d in certs && i in certs ==> g.status(d, i) == StatusIn(certs, ev, d, i)
    requires forall i :: i in certs ==> g.key(i) == certs[i].key
    ensures var cache, key := BooksAfter(certs, ev, probes).cache, (c, certs[p].key);
            && (key in cache <==> Heard(g, probes, c, p).Some?)
            && (key in cache ==> cache[key].conclusion.status == Told(g, probes, c, p))
  {
    hide ConclusionOf, SelectedView, Relevant;
    if probes != [] {
      var n := |probes| - 1;
      var (d, i) := probes[n];
      BooksTell(certs, ev, g, probes[..n], c, p);
      assert (d, i) in probes && certs[d].fp == d;
      assert probes == probes[..n] + [(d, i)];
      OneMoreProbe(certs, ev, probes[..n], d, i);
      assert g.status(d, i) == StatusIn(certs, ev, d, i);
    }
  }
}
