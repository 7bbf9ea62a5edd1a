/** Evidence received after the knowledge cutoff changes nothing in a result but the record that
    it was left out: not the search, not the shrinking, not the verdict. */
module LateEvidence {
  import opened Basics
  import opened Certificates
  import opened Revocation
  import opened RevocationViews
  import opened RevocationLedger
  import opened SearchSpec
  import opened SearchMemory
  import SearchProbes
  import opened Worlds
  import opened Explorers
  import opened Shrinking
  import opened Settling
  import opened Reports

  predicate InTime(item: Item, cutoff: Instant) {
    match item
    case CertItem(_, _) => true
    case CrlItem(_, at) => at <= cutoff
    case OcspItem(_, at) => at <= cutoff
  }

  /** The objects without the evidence received after the cutoff. */
  function Known(objects: Objects, cutoff: Instant): Objects {
    map fp | fp in objects && InTime(objects[fp], cutoff) :: objects[fp]
  }

  lemma KnownParts(objects: Objects, q: Question, lib: Library)
    ensures CertsIn(Known(objects, q.cutoff)) == CertsIn(objects)
    ensures EvidenceIn(Known(objects, q.cutoff), q, lib) == Timely(EvidenceIn(objects, q, lib))
  {
    var a, b := EvidenceIn(Known(objects, q.cutoff), q, lib), Timely(EvidenceIn(objects, q, lib));
    assert a.crls == b.crls;
    assert a.ocsps == b.ocsps;
  }

  // ----- One exploration ------------------------------------------------------------------

  lemma KnownSearch(objects: Objects, q: Question, lib: Library)
    requires q.leaf in CertsIn(objects)
    ensures q.leaf in CertsIn(Known(objects, q.cutoff))
    ensures SearchIn(Known(objects, q.cutoff), q, lib) == SearchIn(objects, q, lib)
  {
    hide SearchRun, PlainFailure, TerminalFailure, LeafFailure, IssuersIn, CertsIn, EvidenceIn, Timely, ConclusionOf;
    var h, g := GraphIn(Known(objects, q.cutoff), q, lib), GraphIn(objects, q, lib);
    var certs, ev := CertsIn(objects), EvidenceIn(objects, q, lib);
    KnownParts(objects, q, lib);
    forall c, p ensures h.status(c, p) == g.status(c, p) {
      if c in certs && p in certs {
        LateEvidenceCannotInterfere(ev, certs[c], AuthorityOf(certs[p]));
      }
    }
    assert Restated(h, g);
    RunSame(h, g, q.leaf, MAX_PATH_LEN);
  }

  predicate IsTimely(ev: Evidence, fp: Fp) {
    fp in Timely(ev).crls || fp in Timely(ev).ocsps
  }

  ghost predicate SameConclusions<K(!new)>(a: map<K, Outcome>, b: map<K, Outcome>) {
    a.Keys == b.Keys && forall k :: k in a ==> a[k].conclusion == b[k].conclusion && a[k].selected == b[k].selected
  }

  /** The books of two evaluators that were asked alike, one of them without the late evidence. */
  ghost predicate SameButLate(ev: Evidence, a: Ledger, b: Ledger) {
    && SameConclusions(a.cache, b.cache) && SameConclusions(a.outcomes, b.outcomes)
    && b.touched <= ev.crls.Keys + ev.ocsps.Keys
    && (forall fp :: fp in a.touched <==> fp in b.touched && IsTimely(ev, fp))
  }

  lemma RelevantTimely(ev: Evidence, cert: Cert, auth: Authority)
    requires ev.crls.Keys !! ev.ocsps.Keys
    ensures forall fp :: fp in Relevant(Timely(ev), cert, auth) <==> fp in Relevant(ev, cert, auth) && IsTimely(ev, fp)
    ensures Relevant(ev, cert, auth) <= ev.crls.Keys + ev.ocsps.Keys
  {
    var less := Timely(ev);
    forall fp | fp in less.ocsps ensures IsOcspFor(less, cert, auth, fp) <==> IsOcspFor(ev, cert, auth, fp) {
      FirstMatchSame(ev, less, cert, auth, ev.ocsps[fp].item.responses);
    }
    forall fp ensures fp in Relevant(less, cert, auth) <==> fp in Relevant(ev, cert, auth) && IsTimely(ev, fp) {
      assert fp in ev.crls ==> fp !in ev.ocsps;
    }
  }

  lemma AskedAlike(ev: Evidence, a: Ledger, b: Ledger, cert: Cert, issuer: Cert)
    requires ev.crls.Keys !! ev.ocsps.Keys && SameButLate(ev, a, b)
    ensures SameButLate(ev, Asked(Timely(ev), a, cert, issuer), Asked(ev, b, cert, issuer))
  {
    hide ConclusionOf, SelectedView, Relevant, NoteAll, FullLog, IsTimely, Timely;
    RelevantTimely(ev, cert, AuthorityOf(issuer));
    LateEvidenceCannotInterfere(ev, cert, AuthorityOf(issuer));
    var x, y := Computed(Timely(ev), a.accounting, cert, issuer), Computed(ev, b.accounting, cert, issuer);
    MoreOutcomes(a.cache, b.cache, (cert.fp, issuer.key), x, y);
    MoreOutcomes(a.outcomes, b.outcomes, cert.fp, x, y);
    hide SameConclusions;
  }

  lemma MoreOutcomes<K(!new)>(a: map<K, Outcome>, b: map<K, Outcome>, k: K, x: Outcome, y: Outcome)
    requires SameConclusions(a, b) && x.conclusion == y.conclusion && x.selected == y.selected
    ensures SameConclusions(a[k := x], b[k := y])
  {
  }

  lemma {:induction false} BooksAlike(ev: Evidence, calls: seq<(Cert, Cert)>)
    requires ev.crls.Keys !! ev.ocsps.Keys
    ensures SameButLate(ev, AskedAll(Timely(ev), BLANK, calls), AskedAll(ev, BLANK, calls))
  {
    hide Asked, IsTimely;
    if calls != [] {
      var n := |calls| - 1;
      BooksAlike(ev, calls[..n]);
      AskedAlike(ev, AskedAll(Timely(ev), BLANK, calls[..n]), AskedAll(ev, BLANK, calls[..n]), calls[n].0, calls[n].1);
    }
  }

  lemma EvidenceApart(objects: Objects, q: Question, lib: Library)
    ensures var ev := EvidenceIn(objects, q, lib);
            && ev.crls.Keys !! ev.ocsps.Keys && (ev.crls.Keys + ev.ocsps.Keys) !! CertsIn(objects).Keys
            && forall fp :: IsTimely(ev, fp) <==> fp in Known(objects, q.cutoff) && fp !in CertsIn(objects)
  {
  }

  /** An exploration without the late evidence finds, asks and concludes the same, and touches the
      same but for the late evidence. */
  lemma KnownTurn(objects: Objects, q: Question, lib: Library)
    requires q.leaf in CertsIn(objects)
    ensures var known := Known(objects, q.cutoff);
            && q.leaf in CertsIn(known) && SearchIn(known, q, lib) == SearchIn(objects, q, lib)
            && SameButLate(EvidenceIn(objects, q, lib), LedgerIn(known, q, lib), LedgerIn(objects, q, lib))
            && TouchedIn(known, q, lib) == TouchedIn(objects, q, lib) * known.Keys
  {
    hide SearchIn, CertsIn, EvidenceIn, SameConclusions, IsTimely, AskedAll, Timely;
    var known, ev := Known(objects, q.cutoff), EvidenceIn(objects, q, lib);
    KnownSearch(objects, q, lib);
    KnownParts(objects, q, lib);
    EvidenceApart(objects, q, lib);
    BooksAlike(ev, CallsOf(CertsIn(objects), SearchIn(objects, q, lib).probes));
    SearchTouchesCerts(objects, q, lib);
    CertsAreObjects(known);
    assert known.Keys <= objects.Keys;
  }

  lemma SearchTouchesCerts(objects: Objects, q: Question, lib: Library)
    requires q.leaf in CertsIn(objects)
    ensures SearchIn(objects, q, lib).touched <= CertsIn(objects).Keys
  {
    hide SearchRun, SearchOf, Told;
    SeenIsSearched(objects, q, lib);
    SearchProbes.ProbesOfSearch(SeenIn(objects, q, lib), q.leaf, MAX_PATH_LEN);
  }

  // ----- The loop and the result -------------------------------------------------------------

  /** The loop settles on the same objects but for the late evidence. It may take another turn
      to leave late evidence out that was never looked at. */
  lemma {:induction false} KnownSettles(objects: Objects, q: Question, lib: Library)
    requires q.leaf in CertsIn(objects)
    ensures q.leaf in CertsIn(Known(objects, q.cutoff))
    ensures Settle(Known(objects, q.cutoff), q, lib)
         == match Settle(objects, q, lib) case None => None case Some(final) => Some(Known(final, q.cutoff))
    decreases |objects.Keys|
  {
    hide SearchIn, TouchedIn, LedgerIn, CertsIn, InTime, SameButLate;
    var known, touched := Known(objects, q.cutoff), TouchedIn(objects, q, lib);
    KnownTurn(objects, q, lib);
    if SearchIn(objects, q, lib).spent <= MAX_EXPLORED_BRANCHES && touched != objects.Keys {
      var less := Restrict(objects, touched);
      TouchedWithin(objects, q, lib);
      RestrictKeys(objects, touched);
      ProperSubsetSmaller(less.Keys, objects.Keys);
      LeafTouched(objects, q, lib);
      KnownSettles(less, q, lib);
      assert Known(less, q.cutoff) == Restrict(known, TouchedIn(known, q, lib));
      if TouchedIn(known, q, lib) == known.Keys {
        assert Restrict(known, known.Keys) == known;
      }
    }
  }

  lemma TraceAlike(path: Path, a: map<Fp, Outcome>, b: map<Fp, Outcome>)
    requires SameConclusions(a, b)
    ensures TraceOf(path, a) == TraceOf(path, b)
  {
    forall i | 0 <= i < |path| ensures TraceAt(path, a, i) == TraceAt(path, b, i) {
    }
  }

  /** Without the evidence received after the cutoff the adjudication has the same verdict, path,
      trace, policies and rejection proof, the same revocation conclusions from the same
      views, and settles on the same objects but for the late evidence. */
  lemma LateEvidenceChangesNothing(objects: Objects, input: Input, lib: Library, signing: Signing)
    ensures var known := Known(objects, input.question.cutoff);
            var a, b := AdjudicationOf(objects, input, lib, signing), AdjudicationOf(known, input, lib, signing);
            && (a.LeafNotFound? <==> b.LeafNotFound?) && (a.OutOfBudget? <==> b.OutOfBudget?)
            && (a.Decided? ==>
                  && b.active == a.active * known.Keys
                  && b.report == a.report.(revocation := b.report.revocation, accounting := b.report.accounting)
                  && SameConclusions(b.report.revocation, a.report.revocation))
  {
    hide SearchIn, TouchedIn, LedgerIn, CertsIn, Settle, CheckArtifact, TraceOf, InTime, PoliciesOn, VerdictOn,
        SameConclusions;
    var q := input.question;
    KnownParts(objects, q, lib);
    if q.leaf in CertsIn(objects) {
      KnownSettles(objects, q, lib);
      if Settle(objects, q, lib).Some? {
        var final := Settle(objects, q, lib).value;
        SettlingIsStable(objects, q, lib);
        KnownTurn(final, q, lib);
        KnownParts(final, q, lib);
        var path := SearchIn(final, q, lib).path;
        if path.Some? {
          TraceAlike(path.value, LedgerIn(Known(final, q.cutoff), q, lib).outcomes, LedgerIn(final, q, lib).outcomes);
        }
      }
    }
  }
}
