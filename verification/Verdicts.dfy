/** What an adjudication guarantees. */
module Verdicts {
  import opened Basics
  import opened Certificates
  import opened Revocation
  import opened RevocationLedger
  import opened RevocationAccounting
  import opened SearchSpec
  import opened SearchPaths
  import opened SearchProof
  import opened SearchProbes
  import opened SearchMemory
  import opened Worlds
  import opened Explorers
  import opened Shrinking
  import opened Settling
  import opened Reports
  import opened PathMeaning
  import opened RejectionMeaning
  import opened SeenPaths
  import Traces
  import Policies
  import PolicyMeaning

  // ----- Packs are self-contained -------------------------------------------------------

  /** Running the engine on exactly the objects it settled on gives the identical result and
      settles on the same objects again. */
  lemma SelfContained(objects: Objects, input: Input, lib: Library, signing: Signing)
    ensures var result := AdjudicationOf(objects, input, lib, signing);
            result.Decided? ==>
              && result.active <= objects.Keys
              && AdjudicationOf(Restrict(objects, result.active), input, lib, signing) == result
  {
    hide SearchIn, TouchedIn, LedgerIn, CertsIn, ReportOn, Settle;
    if input.question.leaf in CertsIn(objects) {
      SettlingIsStable(objects, input.question, lib);
    }
  }

  /** The objects the engine settled on. */
  ghost function Final(objects: Objects, input: Input, lib: Library, signing: Signing): Objects
    requires AdjudicationOf(objects, input, lib, signing).Decided?
  {
    Restrict(objects, AdjudicationOf(objects, input, lib, signing).active)
  }

  lemma FinalIsSettled(objects: Objects, input: Input, lib: Library, signing: Signing)
    requires AdjudicationOf(objects, input, lib, signing).Decided?
    ensures var final, q := Final(objects, input, lib, signing), input.question;
            && q.leaf in CertsIn(objects) && q.leaf in CertsIn(final)
                && CertsIn(final)[q.leaf] == CertsIn(objects)[q.leaf]
            && Settle(objects, q, lib) == Some(final) && TouchedIn(final, q, lib) == final.Keys
            && final.Keys == AdjudicationOf(objects, input, lib, signing).active
            && AdjudicationOf(objects, input, lib, signing).report == ReportOn(final, input, lib, signing)
  {
    hide SearchIn, TouchedIn, LedgerIn, CertsIn, ReportOn, Settle;
    var q := input.question;
    assert q.leaf in CertsIn(objects) && Settle(objects, q, lib).Some?;
    SettlingIsStable(objects, q, lib);
    RestrictedCerts(objects, AdjudicationOf(objects, input, lib, signing).active);
  }

  // ----- The verdict ----------------------------------------------------------------------

  /** The artifact's signature is one by the leaf's key. */
  predicate Signed(leaf: Cert, input: Input, signing: Signing) {
    leaf.key.inProfile && signing.suits(input.algorithm, leaf.key)
    && signing.verifies(leaf.key, input.algorithm, input.signature, input.artifact)
  }

  /** The path is fit, by the evidence among these objects. */
  ghost predicate GoodPath(objects: Objects, q: Question, lib: Library, path: Path) {
    FitPath(CertsIn(objects), EvidenceIn(objects, q, lib), path, q, lib)
  }

  /** Some path among the objects is fit in every respect and has at most `n` certificates. */
  ghost predicate HasFitPath(objects: Objects, q: Question, lib: Library, n: nat) {
    exists r :: GoodPath(objects, q, lib, r) && |r| <= n
  }

  /** Fit, with each certificate unrevoked under some issuer that has the next one's key. */
  ghost predicate PassablePath(objects: Objects, q: Question, lib: Library, path: Path) {
    FitForSome(CertsIn(objects), EvidenceIn(objects, q, lib), path, q, lib)
  }

  /** Fit, with each certificate unrevoked under every issuer that has the next one's key. */
  ghost predicate SafePath(objects: Objects, q: Question, lib: Library, path: Path) {
    FitForAll(CertsIn(objects), EvidenceIn(objects, q, lib), path, q, lib)
  }

  /** When there is no result: the leaf is no certificate among the objects, or exploring all of them
      takes more than 65,536 steps. No later exploration of the shrinking loop can fail. */
  lemma FailuresMean(objects: Objects, input: Input, lib: Library, signing: Signing)
    ensures var result, leaf := AdjudicationOf(objects, input, lib, signing), input.question.leaf;
            && (result.LeafNotFound? <==> !(leaf in objects && objects[leaf].CertItem?))
            && (result.OutOfBudget? <==>
                  leaf in objects && objects[leaf].CertItem?
                  && SearchRun(GraphIn(objects, input.question, lib), leaf, 32).spent > 65_536)
  {
    hide SearchRun, GraphIn, Settle, ReportOn;
    if input.question.leaf in CertsIn(objects) {
      SettlingKeepsThePath(objects, input.question, lib);
    }
  }

  /** VALID means that the signature holds and a path is found. The path is passable among all the
      objects, touched or not, with at most 33 certificates, and no safe path among them is
      better; one is found whenever they have a safe path of at most 33 certificates. */
  lemma VerdictMeans(objects: Objects, input: Input, lib: Library, signing: Signing)
    requires AdjudicationOf(objects, input, lib, signing).Decided?
    ensures var report, q := AdjudicationOf(objects, input, lib, signing).report, input.question;
            && q.leaf in CertsIn(objects)
            && (report.verdict == Valid <==>
                  Signed(CertsIn(objects)[q.leaf], input, signing) && report.path.Some?)
            && (report.path.Some? ==>
                  var p := report.path.value;
                  && PassablePath(objects, q, lib, p) && |p| <= MAX_PATH_LEN + 1
                  && (forall x :: x in p ==> x in AdjudicationOf(objects, input, lib, signing).active)
                  && forall r :: SafePath(objects, q, lib, r) ==> NoBetter(p, r))
            && (report.path == None ==> forall r :: SafePath(objects, q, lib, r) ==> |r| > MAX_PATH_LEN + 1)
  {
    hide TouchedIn, LedgerIn, SearchIn, GraphOf, Settle, AdjudicationOf, Final, CertsIn, EvidenceIn, SearchOf,
        ValidPath, FitForSome, FitForAll;
    var q := input.question;
    FinalIsSettled(objects, input, lib, signing);
    SettlingKeepsThePath(objects, q, lib);
    SeenIsSearched(objects, q, lib);
    SearchIsOptimal(SeenIn(objects, q, lib), q.leaf, MAX_PATH_LEN);
    ArtifactMeans(CertsIn(objects)[q.leaf], input, signing);
    FinalPathInside(objects, input, lib, signing);
    forall r ensures ValidPath(SeenIn(objects, q, lib), q.leaf, r) ==> PassablePath(objects, q, lib, r)
      ensures SafePath(objects, q, lib, r) ==> ValidPath(SeenIn(objects, q, lib), q.leaf, r)
    {
      SeenPathMeans(objects, q, lib, r);
    }
  }

  /** What VALID means on all certificates: the signature holds and there is a path of at most 33
      certificates that is fit by the issuers first asked about, of those with the same key. The
      path reported is the best of these. */
  lemma ValidAsAsked(objects: Objects, input: Input, lib: Library, signing: Signing)
    requires AdjudicationOf(objects, input, lib, signing).Decided?
    ensures var report, q := AdjudicationOf(objects, input, lib, signing).report, input.question;
            && q.leaf in CertsIn(objects)
            && (report.verdict == Valid <==>
                  Signed(CertsIn(objects)[q.leaf], input, signing)
                  && exists r :: PathAsAsked(objects, q, lib, r) && |r| <= MAX_PATH_LEN + 1)
            && (report.path.Some? ==>
                  var p := report.path.value;
                  && PathAsAsked(objects, q, lib, p) && |p| <= MAX_PATH_LEN + 1
                  && forall r :: PathAsAsked(objects, q, lib, r) ==> NoBetter(p, r))
  {
    hide TouchedIn, LedgerIn, SearchIn, GraphOf, Settle, AdjudicationOf, Final, CertsIn, EvidenceIn, SearchOf,
        ValidPath, PathAsAsked;
    var q := input.question;
    FinalIsSettled(objects, input, lib, signing);
    SettlingKeepsThePath(objects, q, lib);
    SeenIsSearched(objects, q, lib);
    SearchIsOptimal(SeenIn(objects, q, lib), q.leaf, MAX_PATH_LEN);
    ArtifactMeans(CertsIn(objects)[q.leaf], input, signing);
    forall r ensures ValidPath(SeenIn(objects, q, lib), q.leaf, r) <==> PathAsAsked(objects, q, lib, r) {
      PathAsAskedMeans(objects, q, lib, r);
    }
  }

  /** If issuer candidates of one certificate with one key agree on their identifier, the verdict
      is VALID exactly when the artifact's signature holds and all the objects together, touched
      or not, have a fit path of at most 33 certificates; the path reported is then the best of
      all fit paths, and keeps to the documented 32 certificates exactly when some fit path does. */
  lemma ValidMeans(objects: Objects, input: Input, lib: Library, signing: Signing)
    requires Coherent(CertsIn(objects)) && AdjudicationOf(objects, input, lib, signing).Decided?
    ensures var report, q := AdjudicationOf(objects, input, lib, signing).report, input.question;
            && q.leaf in CertsIn(objects)
            && (report.verdict == Valid <==>
                  Signed(CertsIn(objects)[q.leaf], input, signing) && HasFitPath(objects, q, lib, MAX_PATH_LEN + 1))
            && (report.path.Some? ==>
                  var p := report.path.value;
                  && GoodPath(objects, q, lib, p) && |p| <= MAX_PATH_LEN + 1
                  && (|p| <= MAX_PATH_LEN <==> HasFitPath(objects, q, lib, MAX_PATH_LEN))
                  && (forall x :: x in p ==> x in AdjudicationOf(objects, input, lib, signing).active)
                  && forall r :: GoodPath(objects, q, lib, r) ==> NoBetter(p, r))
  {
    hide TouchedIn, LedgerIn, SearchIn, GraphOf, Settle, AdjudicationOf, Final, CertsIn, EvidenceIn, SearchOf,
        ValidPath, FitPath, Coherent, FitForSome, FitForAll;
    var final, q := Final(objects, input, lib, signing), input.question;
    FinalIsSettled(objects, input, lib, signing);
    SettlingKeepsThePath(objects, q, lib);
    CoherentSearch(objects, q, lib);
    var g := GraphIn(objects, q, lib);
    SearchIsOptimal(g, q.leaf, MAX_PATH_LEN);
    ArtifactMeans(CertsIn(objects)[q.leaf], input, signing);
    forall r ensures GoodPath(objects, q, lib, r) <==> ValidPath(g, q.leaf, r) {
      FitPathMeans(CertsIn(objects), EvidenceIn(objects, q, lib), q, lib, r);
    }
    FinalPathInside(objects, input, lib, signing);
    if SearchIn(objects, q, lib).path.Some? {
      LimitIsMet(g, q.leaf, MAX_PATH_LEN);
    }
  }

  lemma FinalPathInside(objects: Objects, input: Input, lib: Library, signing: Signing)
    requires AdjudicationOf(objects, input, lib, signing).Decided?
    ensures var result := AdjudicationOf(objects, input, lib, signing);
            result.report.path.Some? ==> forall x :: x in result.report.path.value ==> x in result.active
  {
    hide TouchedIn, LedgerIn, SearchIn, GraphOf, Settle, AdjudicationOf, Final, CertsIn, SearchOf;
    var final, q := Final(objects, input, lib, signing), input.question;
    FinalIsSettled(objects, input, lib, signing);
    SeenIsSearched(final, q, lib);
    SearchIsOptimal(SeenIn(final, q, lib), q.leaf, MAX_PATH_LEN);
    CertsAreObjects(final);
  }

  // ----- Rejection proofs -----------------------------------------------------------------

  /** Without a path there is a rejection proof about the settled objects. They hold no safe path
      of at most 33 certificates, and none of any length if the proof is complete; then
      also every route they hold from the leaf to an anchor has exactly one recorded
      branch as a prefix. */
  lemma NegativeMeans(objects: Objects, input: Input, lib: Library, signing: Signing)
    requires AdjudicationOf(objects, input, lib, signing).Decided?
    ensures var final, q := Final(objects, input, lib, signing), input.question;
            var report := AdjudicationOf(objects, input, lib, signing).report;
            && q.leaf in CertsIn(final) && (report.path.Some? <==> report.proof == None)
            && (report.proof.Some? ==>
                  forall r :: SafePath(final, q, lib, r) ==> |r| > MAX_PATH_LEN + 1 && !report.proof.value.complete)
            && (report.proof.Some? && LeafFailure(CertsIn(final)[q.leaf], q.signedAt) == None ==>
                  && GoodBranches(SeenIn(final, q, lib), [q.leaf], report.proof.value.branches)
                  && (report.proof.value.complete ==>
                        forall r :: Route(SeenIn(final, q, lib), r) && r[0] == q.leaf ==>
                          OneBranchFor(report.proof.value.branches, r)))
  {
    hide TouchedIn, LedgerIn, SearchIn, SearchOf, GraphOf, Settle, AdjudicationOf, Final, CertsIn, EvidenceIn,
        ValidPath, FitForSome, FitForAll;
    var final, q := Final(objects, input, lib, signing), input.question;
    FinalIsSettled(objects, input, lib, signing);
    SeenIsSearched(final, q, lib);
    var g, s := SeenIn(final, q, lib), SearchIn(final, q, lib);
    SearchIsOptimal(g, q.leaf, MAX_PATH_LEN);
    if s.proof.Some? {
      forall r | SafePath(final, q, lib, r) ensures |r| > MAX_PATH_LEN + 1 && !s.proof.value.complete {
        SeenPathMeans(final, q, lib, r);
        if s.proof.value.complete {
          NegativeIsComplete(g, q.leaf, MAX_PATH_LEN);
        }
      }
      if g.leafCheck(q.leaf) == None {
        ProofCoversEveryRoute(g, q.leaf, MAX_PATH_LEN);
        forall r | s.proof.value.complete && Route(g, r) && r[0] == q.leaf
          ensures OneBranchFor(s.proof.value.branches, r) {
        }
      }
    }
  }

  ghost predicate OneBranchFor(bs: seq<Branch>, r: Path) {
    exists i :: 0 <= i < |bs| && Extends(r, bs[i].path)
                && forall j :: 0 <= j < |bs| && Extends(r, bs[j].path) ==> j == i
  }

  /** The reported proof is complete exactly when the leaf itself is rejected or nowhere among the
      settled objects the search ran out of depth below an anchor. */
  lemma CompletenessMeans(objects: Objects, input: Input, lib: Library, signing: Signing)
    requires AdjudicationOf(objects, input, lib, signing).Decided?
    requires AdjudicationOf(objects, input, lib, signing).report.proof.Some?
    ensures var final, q := Final(objects, input, lib, signing), input.question;
            && q.leaf in CertsIn(final)
            && (AdjudicationOf(objects, input, lib, signing).report.proof.value.complete <==>
                  LeafFailure(CertsIn(final)[q.leaf], q.signedAt).Some?
                  || forall r :: !RunsOut(SeenIn(final, q, lib), [q.leaf], MAX_PATH_LEN, r))
  {
    hide TouchedIn, LedgerIn, SearchIn, SearchOf, GraphOf, Settle, AdjudicationOf, Final, CertsIn, RunsOut;
    var final, q := Final(objects, input, lib, signing), input.question;
    FinalIsSettled(objects, input, lib, signing);
    SeenIsSearched(final, q, lib);
    CompleteMeans(SeenIn(final, q, lib), q.leaf, MAX_PATH_LEN);
  }

  /** If the first exploration nowhere runs out of depth below an anchor, a rejection speaks for all
      the objects and not only for the settled ones: the reported proof is complete and they hold
      no safe path of any length. In general they hold none of up to 33 certificates, and so
      none at all exactly when there is no longer one. */
  lemma RejectionSpeaksForAll(objects: Objects, input: Input, lib: Library, signing: Signing)
    requires AdjudicationOf(objects, input, lib, signing).Decided?
    requires AdjudicationOf(objects, input, lib, signing).report.proof.Some?
    ensures var q, proof := input.question, AdjudicationOf(objects, input, lib, signing).report.proof.value;
            && q.leaf in CertsIn(objects)
            && ((forall r :: !RunsOut(SeenIn(objects, q, lib), [q.leaf], MAX_PATH_LEN, r)) ==>
                  proof.complete && forall r :: !SafePath(objects, q, lib, r))
            && ((forall r :: !SafePath(objects, q, lib, r)) <==>
                  !exists r :: SafePath(objects, q, lib, r) && |r| > MAX_PATH_LEN + 1)
  {
    hide TouchedIn, LedgerIn, SearchIn, SearchOf, GraphOf, Settle, AdjudicationOf, Final, CertsIn, EvidenceIn, RunsOut,
        ValidPath, FitForSome, FitForAll;
    var final, q := Final(objects, input, lib, signing), input.question;
    FinalIsSettled(objects, input, lib, signing);
    VerdictMeans(objects, input, lib, signing);
    SettlingKeepsThePath(objects, q, lib);
    var g := SeenIn(objects, q, lib);
    SeenIsSearched(objects, q, lib);
    SearchIsOptimal(g, q.leaf, MAX_PATH_LEN);
    SeenIsSearched(final, q, lib);
    SearchIsOptimal(SeenIn(final, q, lib), q.leaf, MAX_PATH_LEN);
    if forall r :: !RunsOut(g, [q.leaf], MAX_PATH_LEN, r) {
      CompleteMeans(g, q.leaf, MAX_PATH_LEN);
      NegativeIsComplete(g, q.leaf, MAX_PATH_LEN);
      forall r ensures SafePath(objects, q, lib, r) ==> ValidPath(g, q.leaf, r) {
        SeenPathMeans(objects, q, lib, r);
      }
    }
  }

  /** What the branches of a proof say, in the fields of the certificates: if the leaf is rejected,
      there is one branch that gives the first of its checks that is broken; else each branch
      is explained. Out of profile is the reason exactly when the last certificate is. */
  lemma BranchesMean(objects: Objects, input: Input, lib: Library, signing: Signing)
    requires AdjudicationOf(objects, input, lib, signing).Decided?
    requires AdjudicationOf(objects, input, lib, signing).report.proof.Some?
    ensures var final, q := Final(objects, input, lib, signing), input.question;
            var branches := AdjudicationOf(objects, input, lib, signing).report.proof.value.branches;
            && q.leaf in CertsIn(final)
            && var rejected := FirstBroken(LeafChecks(CertsIn(final)[q.leaf], q.signedAt));
            && (rejected.Some? ==> branches == [Branch([q.leaf], rejected.value)])
            && (rejected == None ==> forall b :: b in branches ==>
                  Explained(CertsIn(final), q, lib, SeenIn(final, q, lib).status, b))
            && (forall b :: b in branches ==>
                  b.path != [] && b.path[0] == q.leaf && Last(b.path) in CertsIn(final)
                  && (b.failure.code == Unsupported <==> CertsIn(final)[Last(b.path)].unsupported))
  {
    hide TouchedIn, LedgerIn, SearchIn, SearchOf, GraphOf, Settle, AdjudicationOf, Final, CertsIn, EvidenceIn,
        Explained, Justified, LeafChecks, FirstBroken;
    var final, q := Final(objects, input, lib, signing), input.question;
    FinalIsSettled(objects, input, lib, signing);
    SeenIsSearched(final, q, lib);
    var certs, ev, g := CertsIn(final), EvidenceIn(final, q, lib), SeenIn(final, q, lib);
    LeafRejectionMeans(certs[q.leaf], q.signedAt);
    LeafUnsupported(certs[q.leaf], q.signedAt);
    SearchIsOptimal(g, q.leaf, MAX_PATH_LEN);
    if LeafFailure(certs[q.leaf], q.signedAt).Some? {
      RejectedLeaf(g, q.leaf, MAX_PATH_LEN);
    } else {
      ProofCoversEveryRoute(g, q.leaf, MAX_PATH_LEN);
      forall b | b in AdjudicationOf(objects, input, lib, signing).report.proof.value.branches
        ensures b.path != [] && b.path[0] == q.leaf && Last(b.path) in certs
        ensures Explained(certs, q, lib, g.status, b)
        ensures b.failure.code == Unsupported <==> certs[Last(b.path)].unsupported
      {
        BranchMeans(certs, ev, q, lib, g, b);
        UnsupportedBranch(certs, ev, q, lib, g, b);
      }
    }
  }

  lemma RejectedLeaf(g: Graph, leaf: Fp, maxPathLen: nat)
    requires leaf in g.certs && g.leafCheck(leaf).Some?
    ensures SearchOf(g, leaf, maxPathLen).proof == Some(Proof(true, [Branch([leaf], g.leafCheck(leaf).value)]))
  {
  }

  lemma LeafUnsupported(c: Cert, at: Instant)
    ensures LeafFailure(c, at) == None ==> !c.unsupported
    ensures LeafFailure(c, at).Some? ==> (LeafFailure(c, at).value.code == Unsupported <==> c.unsupported)
  {
  }

  /** Some rejected branch ends with a certificate outside the supported profile. */
  ghost predicate EndsOutOfProfile(certs: map<Fp, Cert>, proof: Proof) {
    exists b :: b in proof.branches && b.path != [] && Last(b.path) in certs && certs[Last(b.path)].unsupported
  }

  /** The verdict is UNSUPPORTED exactly when the adjudication is not VALID and the leaf's key, the
      leaf or the last certificate of a rejected branch is outside the supported profile. */
  lemma UnresolvedMeans(objects: Objects, input: Input, lib: Library, signing: Signing)
    requires AdjudicationOf(objects, input, lib, signing).Decided?
    ensures var report, certs := AdjudicationOf(objects, input, lib, signing).report, CertsIn(objects);
            && input.question.leaf in certs
            && (report.verdict == Unresolved <==>
                  && report.verdict != Valid
                  && (|| !certs[input.question.leaf].key.inProfile || certs[input.question.leaf].unsupported
                      || (report.proof.Some? && EndsOutOfProfile(certs, report.proof.value))))
  {
    hide TouchedIn, LedgerIn, SearchIn, Settle, AdjudicationOf, Final, CertsIn, Explained, LeafChecks, FirstBroken,
        SeenIn;
    FinalIsSettled(objects, input, lib, signing);
    FinalCerts(objects, input, lib, signing);
    ArtifactMeans(CertsIn(objects)[input.question.leaf], input, signing);
    if AdjudicationOf(objects, input, lib, signing).report.proof.Some? {
      BranchesMean(objects, input, lib, signing);
    }
  }

  lemma FinalCerts(objects: Objects, input: Input, lib: Library, signing: Signing)
    requires AdjudicationOf(objects, input, lib, signing).Decided?
    ensures var final := Final(objects, input, lib, signing);
            forall x :: x in CertsIn(final) ==> x in CertsIn(objects) && CertsIn(final)[x] == CertsIn(objects)[x]
  {
    hide AdjudicationOf;
  }

  // ----- The accounting in a pack ---------------------------------------------------------

  lemma {:induction false} TouchedIsEvidence(ev: Evidence, calls: seq<(Cert, Cert)>)
    ensures AskedAll(ev, BLANK, calls).touched <= ev.crls.Keys + ev.ocsps.Keys
  {
    if calls != [] {
      TouchedIsEvidence(ev, calls[..|calls| - 1]);
    }
  }

  /** Every CRL and OCSP response in a pack is accounted for and nothing else is; it is
      recorded as used exactly when some outcome of the final run selected it. */
  lemma PackIsAccounted(objects: Objects, input: Input, lib: Library, signing: Signing)
    requires AdjudicationOf(objects, input, lib, signing).Decided?
    ensures var final, q := Final(objects, input, lib, signing), input.question;
            var report := AdjudicationOf(objects, input, lib, signing).report;
            && q.leaf in CertsIn(final)
            && (forall fp :: fp in report.accounting <==> fp in final && !final[fp].CertItem?)
            && (forall fp :: fp in report.accounting ==>
                  (report.accounting[fp] == Used <==> SelectedBySome(LedgerIn(final, q, lib).cache, fp)))
  {
    hide SearchIn, SearchOf, GraphOf, Settle, AdjudicationOf, Final, AskedAll;
    var final, q := Final(objects, input, lib, signing), input.question;
    FinalIsSettled(objects, input, lib, signing);
    SeenIsSearched(final, q, lib);
    var ev, calls := EvidenceIn(final, q, lib), CallsOf(CertsIn(final), SearchIn(final, q, lib).probes);
    BooksAlwaysBalance(ev, calls);
    TouchedIsEvidence(ev, calls);
    ProbesOfSearch(SeenIn(final, q, lib), q.leaf, MAX_PATH_LEN);
    forall fp | fp in final && !final[fp].CertItem? ensures fp in LedgerIn(final, q, lib).touched {
      assert fp in TouchedIn(final, q, lib);
    }
  }

  /** The trace in the report of a found path is good throughout. */
  lemma ReportedTraceIsGood(objects: Objects, input: Input, lib: Library, signing: Signing)
    requires Traces.OneKeyVerifies(CertsIn(objects))
    requires AdjudicationOf(objects, input, lib, signing).Decided?
    ensures var report := AdjudicationOf(objects, input, lib, signing).report;
            report.path.Some? ==> Traces.AllGood(report.path.value, report.trace)
  {
    hide SearchIn, GraphOf, Settle, AdjudicationOf, LedgerIn, TouchedIn, EvidenceIn;
    var final := Final(objects, input, lib, signing);
    FinalIsSettled(objects, input, lib, signing);
    RestrictedCerts(objects, AdjudicationOf(objects, input, lib, signing).active);
    Traces.TraceIsGood(final, input.question, lib);
  }

  /** The policies reported with a path are those that its certificates leave, cut down to the initial
      set if that asks for policies by name; without a path none are reported. */
  lemma ReportedPoliciesMean(objects: Objects, input: Input, lib: Library, signing: Signing)
    requires AdjudicationOf(objects, input, lib, signing).Decided?
    ensures var report, certs := AdjudicationOf(objects, input, lib, signing).report, CertsIn(objects);
            && (report.validPolicies.Some? <==> report.path.Some?)
            && (report.path.Some? ==>
                  AllIn(certs, report.path.value)
                  && var along := CertPolicies(certs, report.path.value);
                  forall p :: p in report.validPolicies.value <==>
                                PolicyMeaning.Reported(along, input.question.initialPolicySet, p))
  {
    hide SearchIn, GraphOf, Settle, AdjudicationOf, LedgerIn, TouchedIn, EvidenceIn, CertsIn, PassablePath, SafePath,
        PolicyMeaning.Reported;
    var final, q := Final(objects, input, lib, signing), input.question;
    FinalIsSettled(objects, input, lib, signing);
    FinalCerts(objects, input, lib, signing);
    VerdictMeans(objects, input, lib, signing);
    FinalPathInside(objects, input, lib, signing);
    var report := AdjudicationOf(objects, input, lib, signing).report;
    if report.path.Some? {
      PathPolicies(final, q, lib, report.path.value);
      assert CertPolicies(CertsIn(final), report.path.value) == CertPolicies(CertsIn(objects), report.path.value);
    }
  }

  /** A path found among the objects passes, and what it passes with is reported. */
  lemma PathPolicies(objects: Objects, q: Question, lib: Library, path: Path)
    requires q.leaf in CertsIn(objects) && SearchIn(objects, q, lib).path == Some(path)
    ensures AllIn(CertsIn(objects), path) && PoliciesOn(CertsIn(objects), Some(path), q).Some?
    ensures forall p :: p in PoliciesOn(CertsIn(objects), Some(path), q).value <==>
              PolicyMeaning.Reported(CertPolicies(CertsIn(objects), path), q.initialPolicySet, p)
  {
    hide SearchIn, GraphOf, EvidenceIn, CertsIn, Policies.PolicyVerdict, PolicyMeaning.Reported,
        PolicyMeaning.FailsFor;
    var certs, ev, h := CertsIn(objects), EvidenceIn(objects, q, lib), SeenIn(objects, q, lib);
    SeenIsSearched(objects, q, lib);
    SearchIsOptimal(h, q.leaf, MAX_PATH_LEN);
    ValidPathMeans(certs, ev, q, lib, h, path);
    assert PoliciesAlong(CertsAlong(certs, path)) == CertPolicies(certs, path);
    PolicyMeaning.VerdictInFull(CertPolicies(certs, path), q.initialPolicySet);
    PolicyMeaning.PassesMeans(CertPolicies(certs, path), q.initialPolicySet);
    Policies.VerdictMeans(CertPolicies(certs, path), q.initialPolicySet);
  }
}
