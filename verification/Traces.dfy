/** The per-certificate trace of a valid path reads outcomes by certificate alone, although
    a certificate may have been asked about under several issuers. */
module Traces {
  import opened Basics
  import opened Certificates
  import opened Revocation
  import opened RevocationLedger
  import opened SearchSpec
  import opened SearchPaths
  import opened SearchMemory
  import opened SearchProof
  import opened SearchProbes
  import opened Worlds
  import opened Explorers
  import opened Shrinking
  import opened Reports

  /** Call `k` was about this certificate, and its outcome is the one on file. */
  ghost predicate OnFile(l: Ledger, calls: seq<(Cert, Cert)>, fp: Fp, k: nat)
    requires k < |calls|
  {
    var key := (fp, calls[k].1.key);
    calls[k].0.fp == fp && fp in l.outcomes && key in l.cache && l.outcomes[fp] == l.cache[key]
  }

  /** The outcome on file for a certificate is that of some call about it. */
  lemma {:induction false} FiledByACall(ev: Evidence, calls: seq<(Cert, Cert)>, j: nat) returns (k: nat)
    requires j < |calls|
    ensures k < |calls| && OnFile(AskedAll(ev, BLANK, calls), calls, calls[j].0.fp, k)
  {
    var n := |calls| - 1;
    var before := AskedAll(ev, BLANK, calls[..n]);
    var (cert, issuer) := calls[n];
    var fp := calls[j].0.fp;
    if (cert.fp, issuer.key) !in before.cache && cert.fp == fp {
      k := n;
    } else {
      var i: nat := j;
      if j == n {
        i := EarlierCall(ev, calls[..n], (cert.fp, issuer.key));
      }
      k := FiledByACall(ev, calls[..n], i);
      assert calls[..n][k] == calls[k];
    }
  }

  /** A cached key was asked about. */
  lemma {:induction false} EarlierCall(ev: Evidence, calls: seq<(Cert, Cert)>, key: (Fp, Key)) returns (i: nat)
    requires key in AskedAll(ev, BLANK, calls).cache
    ensures i < |calls| && calls[i].0.fp == key.0 && calls[i].1.key == key.1
  {
    var n := |calls| - 1;
    if key == (calls[n].0.fp, calls[n].1.key) {
      i := n;
    } else {
      i := EarlierCall(ev, calls[..n], key);
    }
  }

  /** Every certificate's signature verifies under at most one key. */
  ghost predicate OneKeyVerifies(certs: map<Fp, Cert>) {
    forall c, k, l :: c in certs && k in certs[c].verifiesUnder && l in certs[c].verifiesUnder ==> k == l
  }

  lemma PassedMeansSigned(certs: map<Fp, Cert>, ev: Evidence, q: Question, lib: Library, g: Graph, c: Fp, p: Fp)
    requires c in certs && p in certs && Restated(g, GraphOf(certs, ev, q, lib)) && Passed(g, c, p)
    ensures certs[p].key in certs[c].verifiesUnder
  {
    var path :| OnGraph(g, path) && Last(path) == c && g.plain(path, p) == None;
    assert PlainFailure(certs, q.signedAt, path, p) == None;
  }

  /** Two probes about one certificate were about issuers with the same key. */
  lemma SameKeyAsked(objects: Objects, q: Question, lib: Library, c: Fp, p: Fp, r: Fp)
    requires q.leaf in CertsIn(objects) && OneKeyVerifies(CertsIn(objects))
    requires (c, p) in SearchIn(objects, q, lib).probes && (c, r) in SearchIn(objects, q, lib).probes
    ensures c in CertsIn(objects) && p in CertsIn(objects) && r in CertsIn(objects)
    ensures CertsIn(objects)[p].key == CertsIn(objects)[r].key
  {
    hide SearchIn, PlainFailure, CertsIn, EvidenceIn, GraphOf, Passed, IsParent;
    var certs, ev, g := CertsIn(objects), EvidenceIn(objects, q, lib), SeenIn(objects, q, lib);
    SeenIsSearched(objects, q, lib);
    SearchCalls(objects, q, lib);
    assert Passed(g, c, p) && Passed(g, c, r);
    PassedMeansSigned(certs, ev, q, lib, g, c, p);
    PassedMeansSigned(certs, ev, q, lib, g, c, r);
  }

  /** The outcome on file for a certificate that was asked about under `p` has the status that
      was given for that edge. */
  lemma FiledStatus(objects: Objects, q: Question, lib: Library, c: Fp, p: Fp)
    requires q.leaf in CertsIn(objects) && OneKeyVerifies(CertsIn(objects))
    requires (c, p) in SearchIn(objects, q, lib).probes
    ensures var outcomes := LedgerIn(objects, q, lib).outcomes;
            c in outcomes && outcomes[c].conclusion.status == SeenIn(objects, q, lib).status(c, p)
  {
    hide SearchIn, AskedAll, ConclusionOf, SelectedView, Passed, GraphOf, CertsIn, EvidenceIn, Told, Heard;
    var certs, ev, probes := CertsIn(objects), EvidenceIn(objects, q, lib), SearchIn(objects, q, lib).probes;
    SearchCalls(objects, q, lib);
    var calls := CallsOf(certs, probes);
    var j :| 0 <= j < |probes| && probes[j] == (c, p);
    var k := FiledByACall(ev, calls, j);
    assert probes[k] in probes && probes[k].0 == c;
    SameKeyAsked(objects, q, lib, c, p, probes[k].1);
    GraphTells(objects, q, lib);
    BooksTell(certs, ev, GraphIn(objects, q, lib), probes, c, p);
  }

  lemma GraphTells(objects: Objects, q: Question, lib: Library)
    ensures var certs, ev, g := CertsIn(objects), EvidenceIn(objects, q, lib), GraphIn(objects, q, lib);
            && (forall c, p :: c in certs && p in certs ==> g.status(c, p) == StatusIn(certs, ev, c, p))
            && (forall p :: p in certs ==> g.key(p) == certs[p].key)
  {
  }

  /** Every certificate below the anchor is GOOD and signed by the next one. */
  ghost predicate AllGood(path: Path, trace: seq<TraceEntry>) {
    && |trace| == |path| > 0
    && (forall i: nat :: i + 1 < |path| ==>
          trace[i] == TraceEntry(path[i], if i == 0 then LeafRole else IntermediateRole, Some(path[i + 1]),
                                 Some(GoodStatus)))
    && trace[|path| - 1] == TraceEntry(path[|path| - 1], if |path| == 1 then LeafRole else AnchorRole, None, None)
  }

  lemma StepIsGood(objects: Objects, q: Question, lib: Library, path: Path, i: nat)
    requires q.leaf in CertsIn(objects) && OneKeyVerifies(CertsIn(objects))
    requires SearchIn(objects, q, lib).path == Some(path) && i + 1 < |path|
    ensures TraceAt(path, LedgerIn(objects, q, lib).outcomes, i).revocation == Some(GoodStatus)
  {
    hide SearchIn, SearchOf, LedgerIn, GraphOf, CertsIn;
    var g := SeenIn(objects, q, lib);
    SeenIsSearched(objects, q, lib);
    SearchIsOptimal(g, q.leaf, MAX_PATH_LEN);
    FoundIsAsked(g, q.leaf, MAX_PATH_LEN);
    ClimbsMeans(g, path);
    assert PassesStep(g, path, i);
    assert Last(path[..i + 1]) == path[i];
    FiledStatus(objects, q, lib, path[i], path[i + 1]);
  }

  /** If no signature verifies under two keys, the trace of the path that is found is good
      throughout. */
  lemma TraceIsGood(objects: Objects, q: Question, lib: Library)
    requires q.leaf in CertsIn(objects) && OneKeyVerifies(CertsIn(objects))
    ensures var path := SearchIn(objects, q, lib).path;
            path.Some? ==> AllGood(path.value, TraceOf(path.value, LedgerIn(objects, q, lib).outcomes))
  {
    hide SearchIn, SearchOf, LedgerIn, GraphOf, CertsIn;
    SeenIsSearched(objects, q, lib);
    SearchIsOptimal(SeenIn(objects, q, lib), q.leaf, MAX_PATH_LEN);
    var found := SearchIn(objects, q, lib).path;
    if found.Some? {
      forall i: nat | i + 1 < |found.value|
        ensures TraceAt(found.value, LedgerIn(objects, q, lib).outcomes, i).revocation == Some(GoodStatus)
      {
        StepIsGood(objects, q, lib, found.value, i);
      }
    }
  }
}
