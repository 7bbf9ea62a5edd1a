/** What a valid path is, said of the fields of the certificates and of the evidence: the independent
    reading of the checks that the search makes one by one. */
module PathMeaning {
  import opened Basics
  import opened Certificates
  import opened Revocation
  import RevocationAccounting
  import RevocationMeaning
  import opened SearchSpec
  import opened SearchPaths
  import opened SearchMemory
  import opened Worlds
  import NameConstraints
  import NameMeaning
  import Policies
  import PolicyMeaning

  predicate InForce(c: Cert, at: Instant) {
    !c.unsupported && c.notBefore <= at <= c.notAfter
  }

  /** Fit to sign code at the time of signing. */
  predicate FitLeaf(c: Cert, at: Instant) {
    InForce(c, at) && (c.keyUsage == None || DigitalSignature in c.keyUsage.value)
    && c.eku.Some? && CodeSigning in c.eku.value
  }

  /** Named as the issuer, and with the key that the certificate pins, if it pins one. */
  predicate Candidate(child: Cert, parent: Cert) {
    child.issuer == parent.subject && (child.aki == None || child.aki == parent.ski)
  }

  /** Fit to have issued the certificate below, with this many proper CAs beneath it. */
  predicate FitIssuer(child: Cert, parent: Cert, below: nat, at: Instant) {
    && Candidate(child, parent) && InForce(parent, at)
    && child.sigAlgKnown && parent.key.inProfile && parent.key in child.verifiesUnder
    && parent.isCa && (parent.keyUsage == None || KeyCertSign in parent.keyUsage.value)
    && (parent.pathLen == None || below <= parent.pathLen.value)
  }

  /** The positions below `n` of CA certificates that are not self-issued. */
  function ProperCAs(certs: map<Fp, Cert>, path: Path, n: nat): set<int>
    requires n <= |path| && forall x :: x in path ==> x in certs
  {
    set i | 0 <= i < n && certs[path[i]].isCa && certs[path[i]].subject != certs[path[i]].issuer
  }

  /** Step `i` of the path, but for revocation. */
  predicate FitStep(certs: map<Fp, Cert>, path: Path, i: nat, q: Question)
    requires i + 1 < |path| && forall x :: x in path ==> x in certs
  {
    path[i] !in q.anchors
    && FitIssuer(certs[path[i]], certs[path[i + 1]], |ProperCAs(certs, path, i + 1)|, q.signedAt)
  }

  function CertNames(certs: map<Fp, Cert>, path: Path): seq<NameConstraints.NameCert>
    requires forall x :: x in path ==> x in certs
  {
    seq(|path|, i requires 0 <= i < |path| => certs[path[i]].names)
  }

  function CertPolicies(certs: map<Fp, Cert>, path: Path): seq<Policies.PolicyCert>
    requires forall x :: x in path ==> x in certs
  {
    seq(|path|, i requires 0 <= i < |path| => certs[path[i]].policy)
  }

  /** From the leaf to an anchor without repetition, every step fit, and names and policies in
      order. Nothing is said of revocation. */
  ghost predicate WellBuilt(certs: map<Fp, Cert>, path: Path, q: Question, lib: Library) {
    && |path| > 0 && (forall x :: x in path ==> x in certs)
    && path[0] == q.leaf && path[|path| - 1] in q.anchors
    && (forall i, j :: 0 <= i < j < |path| ==> path[i] != path[j])
    && FitLeaf(certs[q.leaf], q.signedAt) && InForce(certs[path[|path| - 1]], q.signedAt)
    && (forall i: nat :: i + 1 < |path| ==> FitStep(certs, path, i, q))
    && NameMeaning.NamesInOrder(lib.hostOf, CertNames(certs, path))
    && PolicyMeaning.PoliciesInOrder(CertPolicies(certs, path), q.initialPolicySet)
  }

  /** The evidence says that `c` was not revoked under issuer `p` when the artifact was signed. */
  ghost predicate Unrevoked(certs: map<Fp, Cert>, ev: Evidence, c: Fp, p: Fp) {
    c in certs && p in certs
    && RevocationMeaning.SaysGood(ev, certs[c], Authority(certs[p].subject, certs[p].key, certs[p].ski))
  }

  /** It does exactly when the status is GOOD. */
  lemma UnrevokedMeans(certs: map<Fp, Cert>, ev: Evidence, c: Fp, p: Fp)
    ensures Unrevoked(certs, ev, c, p) <==>
              c in certs && p in certs && ConclusionOf(ev, certs[c], AuthorityOf(certs[p])).status == GoodStatus
  {
    hide ConclusionOf, RevocationMeaning.SaysGood;
    if c in certs && p in certs {
      RevocationMeaning.GoodMeans(ev, certs[c], AuthorityOf(certs[p]));
    }
  }

  /** Well built, and every certificate unrevoked under the next one. */
  ghost predicate FitPath(certs: map<Fp, Cert>, ev: Evidence, path: Path, q: Question, lib: Library) {
    WellBuilt(certs, path, q, lib) && forall i: nat :: i + 1 < |path| ==> Unrevoked(certs, ev, path[i], path[i + 1])
  }

  // ----- Issuers that the status cache cannot tell apart --------------------------------

  /** `r` is an issuer candidate of `c` with the key of `p`. */
  predicate StandsIn(certs: map<Fp, Cert>, c: Fp, p: Fp, r: Fp) {
    c in certs && p in certs && r in certs && Candidate(certs[c], certs[r]) && certs[r].key == certs[p].key
  }

  /** Unrevoked under some, or under every, issuer candidate with the key of `p`. */
  ghost predicate UnrevokedForSome(certs: map<Fp, Cert>, ev: Evidence, c: Fp, p: Fp) {
    exists r :: StandsIn(certs, c, p, r) && Unrevoked(certs, ev, c, r)
  }

  ghost predicate UnrevokedForAll(certs: map<Fp, Cert>, ev: Evidence, c: Fp, p: Fp) {
    forall r :: StandsIn(certs, c, p, r) ==> Unrevoked(certs, ev, c, r)
  }

  ghost predicate FitForSome(certs: map<Fp, Cert>, ev: Evidence, path: Path, q: Question, lib: Library) {
    WellBuilt(certs, path, q, lib) && forall i: nat :: i + 1 < |path| ==>
                                        UnrevokedForSome(certs, ev, path[i], path[i + 1])
  }

  ghost predicate FitForAll(certs: map<Fp, Cert>, ev: Evidence, path: Path, q: Question, lib: Library) {
    WellBuilt(certs, path, q, lib) && forall i: nat :: i + 1 < |path| ==>
                                        UnrevokedForAll(certs, ev, path[i], path[i + 1])
  }

  /** On coherent certificates all these readings are one. */
  lemma CoherentReadings(certs: map<Fp, Cert>, ev: Evidence, path: Path, q: Question, lib: Library)
    requires Coherent(certs)
    ensures FitForSome(certs, ev, path, q, lib) <==> FitPath(certs, ev, path, q, lib)
    ensures FitForAll(certs, ev, path, q, lib) <==> FitPath(certs, ev, path, q, lib)
  {
    hide Candidate, CertNames, CertPolicies, Unrevoked;
    if WellBuilt(certs, path, q, lib) {
      forall i: nat | i + 1 < |path|
        ensures UnrevokedForSome(certs, ev, path[i], path[i + 1]) <==> Unrevoked(certs, ev, path[i], path[i + 1])
        ensures UnrevokedForAll(certs, ev, path[i], path[i + 1]) <==> Unrevoked(certs, ev, path[i], path[i + 1])
      {
        assert FitStep(certs, path, i, q);
        OneReading(certs, ev, path[i], path[i + 1]);
      }
    }
  }

  lemma CandidateMeans(child: Cert, parent: Cert)
    ensures Candidate(child, parent) <==> IssuerMatches(child, parent)
  {
  }

  lemma OneReading(certs: map<Fp, Cert>, ev: Evidence, c: Fp, p: Fp)
    requires Coherent(certs) && c in certs && p in certs && Candidate(certs[c], certs[p])
    ensures UnrevokedForSome(certs, ev, c, p) <==> Unrevoked(certs, ev, c, p)
    ensures UnrevokedForAll(certs, ev, c, p) <==> Unrevoked(certs, ev, c, p)
  {
    hide RevocationMeaning.SaysGood;
    assert StandsIn(certs, c, p, p);
    forall r | StandsIn(certs, c, p, r) ensures Unrevoked(certs, ev, c, r) <==> Unrevoked(certs, ev, c, p) {
      assert certs[c] in certs.Values && certs[p] in certs.Values && certs[r] in certs.Values;
      assert RevocationAccounting.SameQuestion(certs[c], certs[p], certs[r]);
      assert AuthorityOf(certs[r]) == AuthorityOf(certs[p]);
    }
  }

  // ----- The search finds fit paths ------------------------------------------------------

  lemma {:induction false} BelowPrefix(certs: map<Fp, Cert>, path: Path, n: nat, m: nat)
    requires n <= m <= |path| && forall x :: x in path ==> x in certs
    ensures BelowCount(certs, path[..m], n) == BelowCount(certs, path, n)
  {
    if n > 0 {
      BelowPrefix(certs, path, n - 1, m);
    }
  }

  /** The count of CAs below is the number of positions on the path that have a proper CA. */
  lemma {:induction false} BelowCountMeans(certs: map<Fp, Cert>, path: Path, n: nat)
    requires n <= |path| && forall x :: x in path ==> x in certs
    ensures BelowCount(certs, path, n) == |ProperCAs(certs, path, n)|
  {
    if n > 0 {
      BelowCountMeans(certs, path, n - 1);
      var last := if certs[path[n - 1]].isCa && certs[path[n - 1]].subject != certs[path[n - 1]].issuer then {n - 1}
                  else {};
      assert ProperCAs(certs, path, n) == ProperCAs(certs, path, n - 1) + last;
    }
  }

  /** A step passes, with whatever statuses, exactly when the issuer is fit and the status GOOD. */
  lemma StepMeans(certs: map<Fp, Cert>, ev: Evidence, q: Question, lib: Library, h: Graph, path: Path, i: nat)
    requires Restated(h, GraphOf(certs, ev, q, lib)) && AllIn(certs, path) && i + 1 < |path|
    ensures PassesStep(h, path, i) <==> FitStep(certs, path, i, q) && h.status(path[i], path[i + 1]) == GoodStatus
  {
    hide ConclusionOf, TerminalFailure, ProperCAs, BelowCount;
    var prefix := path[..i + 1];
    assert Last(prefix) == path[i];
    BelowCountMeans(certs, path, i + 1);
    BelowPrefix(certs, path, i + 1, i + 1);
    assert AllIn(certs, prefix);
  }

  ghost predicate AllStepsGood(h: Graph, path: Path) {
    forall i: nat :: i + 1 < |path| ==> h.status(path[i], path[i + 1]) == GoodStatus
  }

  lemma StepsMean(certs: map<Fp, Cert>, ev: Evidence, q: Question, lib: Library, h: Graph, path: Path)
    requires Restated(h, GraphOf(certs, ev, q, lib)) && AllIn(certs, path)
    ensures (forall i: nat :: i + 1 < |path| ==> PassesStep(h, path, i)) <==>
            (forall i: nat :: i + 1 < |path| ==> FitStep(certs, path, i, q)) && AllStepsGood(h, path)
  {
    hide PassesStep, FitStep, GraphOf;
    if forall i: nat :: i + 1 < |path| ==> PassesStep(h, path, i) {
      forall i: nat | i + 1 < |path|
        ensures FitStep(certs, path, i, q) && h.status(path[i], path[i + 1]) == GoodStatus
      {
        StepMeans(certs, ev, q, lib, h, path, i);
      }
    } else {
      var i: nat :| i + 1 < |path| && !PassesStep(h, path, i);
      StepMeans(certs, ev, q, lib, h, path, i);
    }
  }

  /** The names and policies of a path are in order exactly when its rules hold. */
  lemma RulesMean(certs: map<Fp, Cert>, q: Question, lib: Library, path: Path)
    requires AllIn(certs, path)
    ensures TerminalFailure(CertsAlong(certs, path), q, lib) == None <==>
              && InForce(certs[Last(path)], q.signedAt)
              && NameMeaning.NamesInOrder(lib.hostOf, CertNames(certs, path))
              && PolicyMeaning.PoliciesInOrder(CertPolicies(certs, path), q.initialPolicySet)
  {
    hide TerminalFailure;
    var along := CertsAlong(certs, path);
    TerminalMeans(along, q, lib);
    assert NamesAlong(along) == CertNames(certs, path) && PoliciesAlong(along) == CertPolicies(certs, path);
    NameMeaning.PathMeans(lib.hostOf, CertNames(certs, path));
    PolicyMeaning.PassesMeans(CertPolicies(certs, path), q.initialPolicySet);
  }

  /** The paths that a search with these statuses calls valid are exactly the well built ones
      with every status GOOD. */
  lemma ValidPathMeans(certs: map<Fp, Cert>, ev: Evidence, q: Question, lib: Library, h: Graph, path: Path)
    requires Restated(h, GraphOf(certs, ev, q, lib))
    ensures ValidPath(h, q.leaf, path) <==> WellBuilt(certs, path, q, lib) && AllStepsGood(h, path)
  {
    hide PassesStep, FitStep, AllStepsGood, TerminalFailure, PlainFailure, StatusIn, IssuersIn, CertNames,
        CertPolicies, NameMeaning.NamesInOrder, PolicyMeaning.PoliciesInOrder;
    if AllIn(certs, path) {
      ClimbsMeans(h, path);
      StepsMean(certs, ev, q, lib, h, path);
      RulesMean(certs, q, lib, path);
    }
  }

  /** With the statuses that the evidence gives, they are the fit paths. */
  lemma FitPathMeans(certs: map<Fp, Cert>, ev: Evidence, q: Question, lib: Library, path: Path)
    ensures ValidPath(GraphOf(certs, ev, q, lib), q.leaf, path) <==> FitPath(certs, ev, path, q, lib)
  {
    hide WellBuilt, ConclusionOf, ValidPath, Unrevoked;
    var g := GraphOf(certs, ev, q, lib);
    ValidPathMeans(certs, ev, q, lib, g, path);
    if WellBuilt(certs, path, q, lib) {
      WellBuiltInside(certs, path, q, lib);
      forall i: nat | i + 1 < |path|
        ensures g.status(path[i], path[i + 1]) == GoodStatus <==> Unrevoked(certs, ev, path[i], path[i + 1])
      {
        UnrevokedMeans(certs, ev, path[i], path[i + 1]);
      }
    }
  }

  lemma WellBuiltInside(certs: map<Fp, Cert>, path: Path, q: Question, lib: Library)
    requires WellBuilt(certs, path, q, lib)
    ensures AllIn(certs, path)
    ensures forall i: nat :: i + 1 < |path| ==> IssuerMatches(certs[path[i]], certs[path[i + 1]])
  {
    forall i: nat | i + 1 < |path| ensures IssuerMatches(certs[path[i]], certs[path[i + 1]]) {
      assert FitStep(certs, path, i, q);
      CandidateMeans(certs[path[i]], certs[path[i + 1]]);
    }
  }

  /** Along a well built path every certificate is in force and issued by the next. */
  lemma AllInForce(certs: map<Fp, Cert>, path: Path, q: Question, lib: Library)
    requires WellBuilt(certs, path, q, lib)
    ensures AllIn(certs, path) && forall fp :: fp in path ==> InForce(certs[fp], q.signedAt)
    ensures forall i :: 0 <= i < |path| - 1 ==>
              certs[path[i]].issuer == certs[path[i + 1]].subject
              && certs[path[i + 1]].key in certs[path[i]].verifiesUnder
  {
    hide CertNames, CertPolicies, ProperCAs, NameMeaning.NamesInOrder, PolicyMeaning.PoliciesInOrder;
    forall k | 0 <= k < |path| ensures InForce(certs[path[k]], q.signedAt) {
      if k > 0 {
        assert FitStep(certs, path, k - 1, q);
      }
    }
    forall i | 0 <= i < |path| - 1
      ensures certs[path[i]].issuer == certs[path[i + 1]].subject
      ensures certs[path[i + 1]].key in certs[path[i]].verifiesUnder
    {
      assert FitStep(certs, path, i, q);
    }
  }
}
