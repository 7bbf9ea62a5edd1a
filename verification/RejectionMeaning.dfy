/** Why certificates, steps and paths are rejected: the checks as tables, in order, each with the
    certificate it blames. The first check that is broken gives the failure. */
module RejectionMeaning {
  import opened Basics
  import opened Certificates
  import opened SearchSpec
  import opened SearchPaths
  import opened SearchProof
  import opened SearchMemory
  import opened Revocation
  import opened Worlds
  import opened PathMeaning
  import NameConstraints
  import NameMeaning
  import Policies
  import PolicyMeaning

  datatype Check = Check(broken: bool, blamed: Fp, code: Code)

  function FirstBroken(checks: seq<Check>): Option<Failure> {
    if checks == [] then None
    else if checks[0].broken then Some(Failure(checks[0].blamed, checks[0].code))
    else FirstBroken(checks[1..])
  }

  function InForceChecks(c: Cert, at: Instant): seq<Check> {
    [Check(at < c.notBefore, c.fp, NotYetValid), Check(c.notAfter < at, c.fp, Expired)]
  }

  function LeafChecks(c: Cert, at: Instant): seq<Check> {
    [Check(c.unsupported, c.fp, Unsupported)] + InForceChecks(c, at)
    + [Check(c.keyUsage.Some? && DigitalSignature !in c.keyUsage.value, c.fp, NoDigitalSignature),
       Check(!(c.eku.Some? && CodeSigning in c.eku.value), c.fp, MissingCodeSigning)]
  }

  /** The checks on a step, with so many proper CAs below the issuer, but for revocation. */
  function EdgeChecks(c: Cert, parent: Cert, below: nat, at: Instant): seq<Check> {
    [Check(parent.unsupported, parent.fp, Unsupported),
     Check(!(c.sigAlgKnown && parent.key.inProfile && parent.key in c.verifiesUnder), c.fp, SignatureInvalid)]
    + InForceChecks(parent, at)
    + [Check(!parent.isCa, parent.fp, NotACa),
       Check(parent.keyUsage.Some? && KeyCertSign !in parent.keyUsage.value, parent.fp, NoKeyCertSign),
       Check(parent.pathLen.Some? && parent.pathLen.value < below, parent.fp, PathLenExceeded)]
  }

  function AnchorChecks(c: Cert, at: Instant): seq<Check> {
    [Check(c.unsupported, c.fp, Unsupported)] + InForceChecks(c, at)
  }

  lemma {:induction false} ChecksInTurn(a: seq<Check>, b: seq<Check>)
    ensures FirstBroken(a + b) == (if FirstBroken(a).Some? then FirstBroken(a) else FirstBroken(b))
  {
    if a == [] {
      assert a + b == b;
    } else {
      assert (a + b)[1..] == a[1..] + b;
      ChecksInTurn(a[1..], b);
    }
  }

  lemma OneCheck(c: Check)
    ensures FirstBroken([c]) == if c.broken then Some(Failure(c.blamed, c.code)) else None
  {
    assert FirstBroken([c][1..]) == None;
  }

  lemma TwoChecks(a: Check, b: Check)
    ensures FirstBroken([a, b]) == if a.broken then Some(Failure(a.blamed, a.code))
                                   else if b.broken then Some(Failure(b.blamed, b.code)) else None
  {
    assert [a, b] == [a] + [b];
    ChecksInTurn([a], [b]);
    OneCheck(a);
    OneCheck(b);
  }

  /** The leaf is rejected for the first of its checks that is broken. */
  lemma LeafRejectionMeans(c: Cert, at: Instant)
    ensures LeafFailure(c, at) == FirstBroken(LeafChecks(c, at))
  {
    var first := Check(c.unsupported, c.fp, Unsupported);
    var usage := Check(c.keyUsage.Some? && DigitalSignature !in c.keyUsage.value, c.fp, NoDigitalSignature);
    var purpose := Check(!(c.eku.Some? && CodeSigning in c.eku.value), c.fp, MissingCodeSigning);
    ChecksInTurn([first] + InForceChecks(c, at), [usage, purpose]);
    AnchorRejectionMeans(c, at);
    TwoChecks(usage, purpose);
  }

  lemma AnchorRejectionMeans(c: Cert, at: Instant)
    ensures AnchorFailure(c, at) == FirstBroken(AnchorChecks(c, at))
  {
    var first := Check(c.unsupported, c.fp, Unsupported);
    ChecksInTurn([first], InForceChecks(c, at));
    OneCheck(first);
    TwoChecks(Check(at < c.notBefore, c.fp, NotYetValid), Check(c.notAfter < at, c.fp, Expired));
  }

  /** A step is rejected for the first of its checks that is broken. */
  lemma EdgeRejectionMeans(certs: map<Fp, Cert>, at: Instant, path: Path, p: Fp)
    requires AllIn(certs, path) && p in certs && OwnNames(certs)
    ensures PlainFailure(certs, at, path, p)
         == FirstBroken(EdgeChecks(certs[Last(path)], certs[p], |ProperCAs(certs, path, |path|)|, at))
  {
    hide ProperCAs, BelowCount;
    BelowCountMeans(certs, path, |path|);
    var c, parent, below := certs[Last(path)], certs[p], |ProperCAs(certs, path, |path|)|;
    var profile := Check(parent.unsupported, parent.fp, Unsupported);
    var signed := Check(!(c.sigAlgKnown && parent.key.inProfile && parent.key in c.verifiesUnder), c.fp,
                        SignatureInvalid);
    var ca := Check(!parent.isCa, parent.fp, NotACa);
    var usage := Check(parent.keyUsage.Some? && KeyCertSign !in parent.keyUsage.value, parent.fp, NoKeyCertSign);
    var length := Check(parent.pathLen.Some? && parent.pathLen.value < below, parent.fp, PathLenExceeded);
    TwoChecks(profile, signed);
    TwoChecks(Check(at < parent.notBefore, parent.fp, NotYetValid), Check(parent.notAfter < at, parent.fp, Expired));
    TwoChecks(ca, usage);
    OneCheck(length);
    ChecksInTurn([ca, usage], [length]);
    assert [ca, usage] + [length] == [ca, usage, length];
    ChecksInTurn([profile, signed], InForceChecks(parent, at));
    ChecksInTurn([profile, signed] + InForceChecks(parent, at), [ca, usage, length]);
  }

  // ----- The rules on a whole path -------------------------------------------------------------

  /** Why a whole path is rejected: for its anchor, else for its names, blamed on the certificate
      nearest the anchor that has broken ones, else for its policies. */
  ghost predicate PathFailsFor(certs: map<Fp, Cert>, q: Question, lib: Library, path: Path, f: Failure)
    requires AllIn(certs, path)
  {
    var anchor := FirstBroken(AnchorChecks(certs[path[|path| - 1]], q.signedAt));
    var names, policies := CertNames(certs, path), CertPolicies(certs, path);
    match f.code
    case NameConstraintBroken(fault) =>
      anchor == None
      && exists k: nat :: k < |path| && f.cert == path[k] && NameMeaning.BlamedFor(lib.hostOf, names, k, fault)
    case PolicyBroken(fault) =>
      anchor == None && NameMeaning.NamesInOrder(lib.hostOf, names)
      && !PolicyMeaning.PoliciesInOrder(policies, q.initialPolicySet)
      && exists k: nat :: k < |path| && f.cert == path[k]
                          && PolicyMeaning.FailsFor(policies, q.initialPolicySet, fault, k)
    case _ => anchor == Some(f)
  }

  lemma PathRejectionMeans(certs: map<Fp, Cert>, q: Question, lib: Library, path: Path)
    requires AllIn(certs, path) && OwnNames(certs)
    ensures match TerminalFailure(CertsAlong(certs, path), q, lib)
            case None =>
              && FirstBroken(AnchorChecks(certs[Last(path)], q.signedAt)) == None
              && NameMeaning.NamesInOrder(lib.hostOf, CertNames(certs, path))
              && PolicyMeaning.PoliciesInOrder(CertPolicies(certs, path), q.initialPolicySet)
            case Some(f) => PathFailsFor(certs, q, lib, path, f)
  {
    hide AnchorFailure, FirstBroken, NameMeaning.NamesInOrder, NameMeaning.BlamedFor, PolicyMeaning.FailsFor,
        PolicyMeaning.PoliciesInOrder, NameConstraints.PathOk, Policies.PathPasses;
    var along := CertsAlong(certs, path);
    AnchorRejectionMeans(certs[Last(path)], q.signedAt);
    AnchorCodes(certs[Last(path)], q.signedAt);
    assert NamesAlong(along) == CertNames(certs, path) && PoliciesAlong(along) == CertPolicies(certs, path);
    TerminalStages(along, q, lib);
    hide TerminalFailure;
    NameMeaning.VerdictInFull(lib.hostOf, CertNames(certs, path));
    PolicyMeaning.VerdictInFull(CertPolicies(certs, path), q.initialPolicySet);
    PolicyMeaning.PassesMeans(CertPolicies(certs, path), q.initialPolicySet);
    Policies.VerdictMeans(CertPolicies(certs, path), q.initialPolicySet);
  }

  /** The anchor comes first, then the names, then the policies. */
  lemma TerminalStages(path: seq<Cert>, q: Question, lib: Library)
    requires |path| > 0
    ensures var names := NameConstraints.NameVerdict(lib.Matcher(), NamesAlong(path));
            var policies := Policies.PolicyVerdict(PoliciesAlong(path), q.initialPolicySet);
            && (names.Breach? ==> names.position < |path| - 1) && (policies.Fail? ==> policies.position < |path|)
            && TerminalFailure(path, q, lib) ==
                 if AnchorFailure(path[|path| - 1], q.signedAt).Some? then AnchorFailure(path[|path| - 1], q.signedAt)
                 else if names.Breach? then Some(Failure(path[names.position].fp, NameConstraintBroken(names.fault)))
                 else if policies.Fail? then Some(Failure(path[policies.position].fp, PolicyBroken(policies.fault)))
                 else None
  {
    NameConstraints.NameVerdictMeans(lib.Matcher(), NamesAlong(path));
    Policies.VerdictMeans(PoliciesAlong(path), q.initialPolicySet);
  }

  lemma AnchorCodes(c: Cert, at: Instant)
    ensures AnchorFailure(c, at).Some? ==> AnchorFailure(c, at).value.code in {Unsupported, NotYetValid, Expired}
  {
  }

  // ----- Branches of a rejection proof ------------------------------------------------------------

  /** Where the search climbs, every issuer is in profile. */
  lemma ClimbedInProfile(certs: map<Fp, Cert>, ev: Evidence, q: Question, lib: Library, h: Graph, path: Path)
    requires Restated(h, GraphOf(certs, ev, q, lib)) && Climbs(h, path)
    requires path[0] in certs && !certs[path[0]].unsupported
    ensures AllIn(certs, path) && !certs[Last(path)].unsupported
  {
    hide ConclusionOf, TerminalFailure, IssuerMatches;
    if |path| > 1 {
      assert EdgeFailure(h, path[..|path| - 1], Last(path)) == None;
    }
  }

  lemma EdgeUnsupported(certs: map<Fp, Cert>, ev: Evidence, q: Question, lib: Library, h: Graph, path: Path, p: Fp)
    requires Restated(h, GraphOf(certs, ev, q, lib)) && AllIn(certs, path) && p in certs
    requires EdgeFailure(h, path, p).Some?
    ensures EdgeFailure(h, path, p).value.code == Unsupported <==> certs[p].unsupported
  {
    hide ConclusionOf, TerminalFailure, IssuerMatches;
  }

  lemma TerminalUnsupported(path: seq<Cert>, q: Question, lib: Library)
    requires |path| > 0 && TerminalFailure(path, q, lib).Some?
    ensures TerminalFailure(path, q, lib).value.code == Unsupported <==> path[|path| - 1].unsupported
  {
    NameConstraints.NameVerdictMeans(lib.Matcher(), NamesAlong(path));
    Policies.VerdictMeans(PoliciesAlong(path), q.initialPolicySet);
  }

  /** A branch of a proof is rejected as out of profile exactly when its last certificate is. */
  lemma UnsupportedBranch(certs: map<Fp, Cert>, ev: Evidence, q: Question, lib: Library, h: Graph, b: Branch)
    requires Restated(h, GraphOf(certs, ev, q, lib)) && Justified(h, b) && b.path != []
    requires b.path[0] in certs && !certs[b.path[0]].unsupported
    ensures Last(b.path) in certs && (b.failure.code == Unsupported <==> certs[Last(b.path)].unsupported)
  {
    hide ConclusionOf, TerminalFailure, IssuerMatches, PlainFailure, StatusIn;
    if Climbs(h, b.path) {
      ClimbedInProfile(certs, ev, q, lib, h, b.path);
      if Last(b.path) in h.anchors && h.terminal(b.path) == Some(b.failure) {
        TerminalUnsupported(CertsAlong(certs, b.path), q, lib);
      }
    }
    var n := |b.path| - 1;
    if n > 0 && Climbs(h, b.path[..n]) {
      ClimbedInProfile(certs, ev, q, lib, h, b.path[..n]);
      if EdgeFailure(h, b.path[..n], Last(b.path)) == Some(b.failure) && Last(b.path) in certs {
        EdgeUnsupported(certs, ev, q, lib, h, b.path[..n], Last(b.path));
      }
    }
  }

  /** A chain of issuer candidates, of whatever fitness. */
  ghost predicate LeadsUp(certs: map<Fp, Cert>, chain: Path) {
    |chain| > 0 && (forall x :: x in chain ==> x in certs)
    && forall i :: 0 <= i < |chain| - 1 ==> Candidate(certs[chain[i]], certs[chain[i + 1]])
  }

  ghost predicate HasWayUp(certs: map<Fp, Cert>, anchors: set<Fp>, c: Fp) {
    exists chain :: LeadsUp(certs, chain) && chain[0] == c && chain[|chain| - 1] in anchors
  }

  /** All steps are fit, and no certificate comes twice. */
  ghost predicate FitSteps(certs: map<Fp, Cert>, q: Question, path: Path) {
    && AllIn(certs, path) && (forall i, j :: 0 <= i < j < |path| ==> path[i] != path[j])
    && (forall i: nat :: i + 1 < |path| ==> FitStep(certs, path, i, q))
  }

  /** The step from the path to this candidate fails the first of its checks that is broken, the
      status being the last of them. */
  ghost predicate StepRejected(certs: map<Fp, Cert>, q: Question, told: Status, path: Path, p: Fp, f: Failure)
    requires AllIn(certs, path)
  {
    var child := path[|path| - 1];
    p in certs && p !in path && child !in q.anchors && Candidate(certs[child], certs[p])
    && FirstBroken(EdgeChecks(certs[child], certs[p], |ProperCAs(certs, path, |path|)|, q.signedAt)
                   + [Check(told != GoodStatus, child, RevocationNotGood(told))]) == Some(f)
  }

  /** The path is fit so far, and the rules on whole paths reject it, or it can go no further. */
  ghost predicate EndRejected(certs: map<Fp, Cert>, q: Question, lib: Library, b: Branch)
    requires AllIn(certs, b.path)
  {
    var path, last := b.path, b.path[|b.path| - 1];
    if last in q.anchors then PathFailsFor(certs, q, lib, path, b.failure)
    else
      (b.failure == Failure(last, NoIssuer) && forall p :: p in certs && Candidate(certs[last], certs[p]) ==> p in path)
      || (b.failure == Failure(last, NoTrustedAnchor) && !HasWayUp(certs, q.anchors, last))
  }

  /** What a branch of a rejection proof says, in fields: its path is fit but for its last step or its
      end, and is rejected for the reason given. */
  ghost predicate Explained(certs: map<Fp, Cert>, q: Question, lib: Library, status: (Fp, Fp) -> Status, b: Branch) {
    (FitSteps(certs, q, b.path) && EndRejected(certs, q, lib, b))
    || (exists path: Path, p: Fp :: b.path == path + [p] && FitSteps(certs, q, path)
                          && StepRejected(certs, q, status(path[|path| - 1], p), path, p, b.failure))
  }

  lemma ClimbsFits(certs: map<Fp, Cert>, ev: Evidence, q: Question, lib: Library, h: Graph, path: Path)
    requires Restated(h, GraphOf(certs, ev, q, lib)) && Climbs(h, path)
    ensures AllIn(certs, path) && FitSteps(certs, q, path)
  {
    hide GraphOf, PassesStep, FitStep;
    assert h.certs == certs.Keys by {
      CertsOfGraph(certs, ev, q, lib);
    }
    ClimbsMeans(h, path);
    StepsMean(certs, ev, q, lib, h, path);
  }

  lemma CertsOfGraph(certs: map<Fp, Cert>, ev: Evidence, q: Question, lib: Library)
    ensures var g := GraphOf(certs, ev, q, lib); g.certs == certs.Keys && g.anchors == q.anchors
    ensures forall c, p :: IsParent(GraphOf(certs, ev, q, lib), c, p) <==>
              c in certs && p in certs && Candidate(certs[c], certs[p])
  {
    hide ConclusionOf, TerminalFailure, PlainFailure;
  }

  lemma WayUpMeans(certs: map<Fp, Cert>, ev: Evidence, q: Question, lib: Library, h: Graph, c: Fp)
    requires Restated(h, GraphOf(certs, ev, q, lib))
    ensures CanReach(h, c) <==> HasWayUp(certs, q.anchors, c)
  {
    CertsOfGraph(certs, ev, q, lib);
    hide GraphOf, Candidate;
    if CanReach(h, c) {
      var chain :| Chain(h, chain) && chain[0] == c && Last(chain) in h.anchors;
      assert LeadsUp(certs, chain);
    }
    if HasWayUp(certs, q.anchors, c) {
      var chain :| LeadsUp(certs, chain) && chain[0] == c && chain[|chain| - 1] in q.anchors;
      assert Chain(h, chain) && Last(chain) in h.anchors;
    }
  }

  lemma EdgeExplained(certs: map<Fp, Cert>, ev: Evidence, q: Question, lib: Library, h: Graph, path: Path, p: Fp)
    requires Restated(h, GraphOf(certs, ev, q, lib)) && OwnNames(certs) && AllIn(certs, path) && p in certs
    ensures var status := h.status(Last(path), p);
            EdgeFailure(h, path, p) ==
              FirstBroken(EdgeChecks(certs[Last(path)], certs[p], |ProperCAs(certs, path, |path|)|, q.signedAt)
                          + [Check(status != GoodStatus, Last(path), RevocationNotGood(status))])
  {
    hide ConclusionOf, TerminalFailure, PlainFailure, EdgeChecks, ProperCAs;
    EdgeRejectionMeans(certs, q.signedAt, path, p);
    var status := h.status(Last(path), p);
    var last := Check(status != GoodStatus, Last(path), RevocationNotGood(status));
    ChecksInTurn(EdgeChecks(certs[Last(path)], certs[p], |ProperCAs(certs, path, |path|)|, q.signedAt), [last]);
    OneCheck(last);
  }

  lemma AnchorExplained(certs: map<Fp, Cert>, ev: Evidence, q: Question, lib: Library, h: Graph, b: Branch)
    requires Restated(h, GraphOf(certs, ev, q, lib)) && OwnNames(certs) && AllIn(certs, b.path)
    requires Last(b.path) in h.anchors && h.terminal(b.path) == Some(b.failure)
    ensures EndRejected(certs, q, lib, b)
  {
    CertsOfGraph(certs, ev, q, lib);
    PathRejectionMeans(certs, q, lib, b.path);
    hide TerminalFailure, PathFailsFor, PlainFailure, IssuersIn, StatusIn, CertNames, CertPolicies;
  }

  lemma NoIssuerExplained(certs: map<Fp, Cert>, ev: Evidence, q: Question, lib: Library, h: Graph, b: Branch)
    requires Restated(h, GraphOf(certs, ev, q, lib)) && AllIn(certs, b.path)
    requires Last(b.path) !in h.anchors && Open(h, b.path) == [] && b.failure == Failure(Last(b.path), NoIssuer)
    ensures EndRejected(certs, q, lib, b)
  {
    CertsOfGraph(certs, ev, q, lib);
    hide GraphOf, Candidate, HasWayUp, PathFailsFor;
    forall p | p in certs && Candidate(certs[Last(b.path)], certs[p]) ensures p in b.path {
      assert p !in Open(h, b.path);
    }
  }

  lemma NoWayExplained(certs: map<Fp, Cert>, ev: Evidence, q: Question, lib: Library, h: Graph, b: Branch)
    requires Restated(h, GraphOf(certs, ev, q, lib)) && AllIn(certs, b.path)
    requires Last(b.path) !in h.anchors && !CanReach(h, Last(b.path))
    requires b.failure == Failure(Last(b.path), NoTrustedAnchor)
    ensures EndRejected(certs, q, lib, b)
  {
    CertsOfGraph(certs, ev, q, lib);
    WayUpMeans(certs, ev, q, lib, h, Last(b.path));
    hide GraphOf, Candidate, HasWayUp, PathFailsFor, CanReach;
  }

  lemma StepExplained(certs: map<Fp, Cert>, ev: Evidence, q: Question, lib: Library, h: Graph, path: Path, p: Fp,
                      f: Failure)
    requires Restated(h, GraphOf(certs, ev, q, lib)) && OwnNames(certs) && AllIn(certs, path)
    requires Last(path) !in h.anchors && IsParent(h, Last(path), p) && p !in path && EdgeFailure(h, path, p) == Some(f)
    ensures StepRejected(certs, q, h.status(Last(path), p), path, p, f)
  {
    CertsOfGraph(certs, ev, q, lib);
    hide GraphOf, EdgeChecks, EdgeFailure, Candidate, ProperCAs;
    EdgeExplained(certs, ev, q, lib, h, path, p);
  }

  /** Every branch that the search justifies is explained in fields. */
  lemma BranchMeans(certs: map<Fp, Cert>, ev: Evidence, q: Question, lib: Library, h: Graph, b: Branch)
    requires Restated(h, GraphOf(certs, ev, q, lib)) && OwnNames(certs) && Justified(h, b) && b.path != []
    ensures Explained(certs, q, lib, h.status, b)
  {
    hide GraphOf, FitSteps, EndRejected, StepRejected, CanReach, EdgeFailure, Open;
    if Climbs(h, b.path) && Last(b.path) in h.anchors && h.terminal(b.path) == Some(b.failure) {
      ClimbsFits(certs, ev, q, lib, h, b.path);
      AnchorExplained(certs, ev, q, lib, h, b);
    } else if Climbs(h, b.path) && Last(b.path) !in h.anchors && Open(h, b.path) == []
              && b.failure == Failure(Last(b.path), NoIssuer) {
      ClimbsFits(certs, ev, q, lib, h, b.path);
      NoIssuerExplained(certs, ev, q, lib, h, b);
    } else if Climbs(h, b.path) && Last(b.path) !in h.anchors && !CanReach(h, Last(b.path))
              && b.failure == Failure(Last(b.path), NoTrustedAnchor) {
      ClimbsFits(certs, ev, q, lib, h, b.path);
      NoWayExplained(certs, ev, q, lib, h, b);
    } else {
      var path, p := b.path[..|b.path| - 1], Last(b.path);
      assert b.path == path + [p];
      ClimbsFits(certs, ev, q, lib, h, path);
      StepExplained(certs, ev, q, lib, h, path, p, b.failure);
    }
  }
}
