/** Objects on which the depth limit shows: self-issued certificates of one name and key, chained
    by their key identifiers, and one CRL that revokes none of them. */
module LongChains {
  import opened Basics
  import opened Certificates
  import opened Revocation
  import opened RevocationViews
  import opened RevocationLedger
  import opened SearchSpec
  import opened SearchPaths
  import opened SearchMemory
  import SearchProbes
  import opened Cutoffs
  import opened Worlds
  import opened Explorers
  import opened Shrinking
  import opened Reports
  import opened PathMeaning
  import opened Verdicts
  import NameConstraints
  import Policies

  const NAME: Token := 7
  const KEY := Key(7, true)
  const CRL_FP: Fp := 99

  const NO_NAMES := NameConstraints.NameCert(NameConstraints.NOTHING, NameConstraints.NOTHING, NameConstraints.NOTHING)
  const NO_POLICIES := Policies.PolicyCert(None, [], None, None, None)

  /** Certificate `i` names certificate `i` + 1 as its issuer, by the key identifier. */
  function Rung(i: nat): Cert {
    Cert(i, NAME, NAME, i, Some(i), Some(i + 1), KEY, true, {KEY}, 0, 10, true, None, None, Some({CodeSigning}), false,
         NO_NAMES, NO_POLICIES)
  }

  const QUIET := Crl(NAME, None, None, Some(1), None, 5, Some(10), map[], true, {KEY}, false)

  /** Certificates 0 to `top`, and the CRL. */
  function Chained(top: nat): Objects {
    (map i | i in Between(0, top) :: CertItem(Rung(i), None))[CRL_FP := CrlItem(QUIET, 5)]
  }

  /** Was the artifact signed at 5, by what was known at 5? Certificate 0 is the signer's. */
  function Asking(anchor: nat): Question {
    Question(0, {anchor}, 5, 5, {Policies.AnyPolicy})
  }

  lemma ChainedCerts(top: nat)
    requires top < CRL_FP
    ensures CertsIn(Chained(top)) == map i | i in Between(0, top) :: Rung(i)
    ensures Chained(top).Keys == Between(0, top) + {CRL_FP}
    ensures OwnNames(CertsIn(Chained(top)))
  {
  }

  lemma ChainedEvidence(top: nat, q: Question, lib: Library)
    requires top < CRL_FP
    ensures EvidenceIn(Chained(top), q, lib)
         == Evidence(map[CRL_FP := Received(QUIET, 5)], map[], q.signedAt, q.cutoff, lib.hashes)
  {
    var ev := EvidenceIn(Chained(top), q, lib);
    assert ev.crls == map[CRL_FP := Received(QUIET, 5)];
    assert ev.ocsps == map[];
  }

  lemma ChainedCoherent(top: nat)
    requires top < CRL_FP
    ensures Coherent(CertsIn(Chained(top)))
  {
    ChainedCerts(top);
  }

  /** A usable CRL of the signing time that revokes nothing makes its issuer's certificates GOOD. */
  lemma QuietCrl(ev: Evidence, crl: Crl, cert: Cert, auth: Authority)
    requires ev.crls == map[CRL_FP := Received(crl, 5)] && ev.ocsps == map[] && ev.signedAt == 5
    requires crl.issuer == cert.issuer && crl.entries == map[] && crl.thisUpdate == 5
    requires CrlFate(ev, auth, CRL_FP) == CompleteCrl
    ensures ConclusionOf(ev, cert, auth).status == GoodStatus
  {
    hide CrlFate, SelectedView;
    SelectedIsBest(ev, cert, auth);
    assert IsView(ev, cert, auth, CrlId(CRL_FP));
    var s := SelectedView(ev, cert, auth).value;
    assert IsBest(ev, cert, auth, s);
    assert s.id == CrlId(CRL_FP);
  }

  // ----- The graph is a ladder -----------------------------------------------------------------

  lemma NoNamesBroken(matcher: NameConstraints.Matcher, path: seq<NameConstraints.NameCert>)
    requires forall i :: 0 <= i < |path| ==> path[i] == NO_NAMES
    ensures NameConstraints.PathOk(matcher, path)
  {
    assert forall k :: NameConstraints.NOTHING.Of(k) == [];
  }

  lemma NoPoliciesBroken(path: seq<Policies.PolicyCert>)
    requires |path| > 0 && forall i :: 0 <= i < |path| ==> path[i] == NO_POLICIES
    ensures Policies.PathPasses(path, {Policies.AnyPolicy})
  {
    Policies.EffectMeansSkipsSpent(path, Policies.RequireExplicit, 0);
    assert forall p :: 0 < p < |path| ==> Policies.SkipValue(path[p], Policies.RequireExplicit) == None;
    forall i | 0 <= i < |path| - 1 ensures Policies.ParentMappings(path, i) == [] {
    }
  }

  predicate Plain(c: Cert) {
    c.names == NO_NAMES && c.policy == NO_POLICIES && !c.unsupported && c.notBefore == 0 && c.notAfter == 10
  }

  lemma RulesHold(path: seq<Cert>, anchor: nat, lib: Library)
    requires |path| > 0 && forall i :: 0 <= i < |path| ==> Plain(path[i])
    ensures TerminalFailure(path, Asking(anchor), lib) == None
  {
    hide TerminalFailure;
    TerminalMeans(path, Asking(anchor), lib);
    NoNamesBroken(lib.Matcher(), NamesAlong(path));
    NoPoliciesBroken(PoliciesAlong(path));
    assert Plain(path[|path| - 1]);
  }

  lemma ChainTerminal(top: nat, anchor: nat, lib: Library, path: Path)
    requires top < CRL_FP && AllIn(CertsIn(Chained(top)), path)
    ensures TerminalFailure(CertsAlong(CertsIn(Chained(top)), path), Asking(anchor), lib) == None
  {
    hide TerminalFailure;
    var certs := CertsIn(Chained(top));
    ChainedCerts(top);
    forall i | 0 <= i < |path| ensures Plain(CertsAlong(certs, path)[i]) {
      assert path[i] in certs && certs[path[i]] == Rung(path[i]);
    }
    RulesHold(CertsAlong(certs, path), anchor, lib);
  }

  lemma ChainPlain(top: nat, path: Path, p: Fp)
    requires top < CRL_FP && AllIn(CertsIn(Chained(top)), path) && p <= top
    ensures p in CertsIn(Chained(top)) && PlainFailure(CertsIn(Chained(top)), 5, path, p) == None
  {
    ChainedCerts(top);
  }

  lemma ChainStatus(top: nat, anchor: nat, lib: Library, c: Fp, p: Fp)
    requires top < CRL_FP && c <= top && p <= top
    ensures StatusIn(CertsIn(Chained(top)), EvidenceIn(Chained(top), Asking(anchor), lib), c, p) == GoodStatus
  {
    hide ConclusionOf;
    ChainedCerts(top);
    ChainedEvidence(top, Asking(anchor), lib);
    QuietCrl(EvidenceIn(Chained(top), Asking(anchor), lib), QUIET, Rung(c), AuthorityOf(Rung(p)));
  }

  lemma ChainEdges(top: nat, anchor: nat, lib: Library, c: Fp, p: Fp)
    requires top < CRL_FP && c <= top && p <= top
    ensures var g := GraphIn(Chained(top), Asking(anchor), lib);
            (p in g.parents(c) <==> p == c + 1) && g.status(c, p) == GoodStatus
  {
    hide PlainFailure, TerminalFailure, LeafFailure, StatusIn, EvidenceIn, CertsIn, Chained;
    ChainedCerts(top);
    assert CertsIn(Chained(top))[c] == Rung(c) && CertsIn(Chained(top))[p] == Rung(p);
    ChainStatus(top, anchor, lib, c, p);
  }

  lemma ChainShape(top: nat, anchor: nat, lib: Library)
    requires top < CRL_FP
    ensures var g := GraphIn(Chained(top), Asking(anchor), lib);
            g.certs == Between(0, top) && g.anchors == {anchor} && g.leafCheck(0) == None
  {
    hide PlainFailure, TerminalFailure, StatusIn, EvidenceIn, IssuersIn;
    ChainedCerts(top);
  }

  lemma ChainChecks(top: nat, anchor: nat, lib: Library, path: Path)
    requires top < CRL_FP && OnGraph(GraphIn(Chained(top), Asking(anchor), lib), path)
    ensures var g := GraphIn(Chained(top), Asking(anchor), lib);
            g.terminal(path) == None && forall p :: IsParent(g, Last(path), p) ==> g.plain(path, p) == None
  {
    hide PlainFailure, TerminalFailure, LeafFailure, StatusIn, EvidenceIn, IssuersIn, CertsIn;
    ChainedCerts(top);
    ChainTerminal(top, anchor, lib, path);
    forall p: Fp | p <= top ensures PlainFailure(CertsIn(Chained(top)), 5, path, p) == None {
      ChainPlain(top, path, p);
    }
  }

  lemma ChainIsLadder(top: nat, anchor: nat, lib: Library)
    requires top < CRL_FP
    ensures IsLadder(GraphIn(Chained(top), Asking(anchor), lib), top, anchor)
  {
    hide GraphIn;
    var g := GraphIn(Chained(top), Asking(anchor), lib);
    ChainShape(top, anchor, lib);
    forall c: Fp, p: Fp | c <= top && p <= top
      ensures p in g.parents(c) <==> p == c + 1
      ensures g.status(c, p) == GoodStatus
    {
      ChainEdges(top, anchor, lib, c, p);
    }
    forall path | OnGraph(g, path)
      ensures g.terminal(path) == None && forall p :: IsParent(g, Last(path), p) ==> g.plain(path, p) == None
    {
      ChainChecks(top, anchor, lib, path);
    }
  }

  // ----- What the engine makes of it -----------------------------------------------------------

  lemma ChainSearch(top: nat, anchor: nat, lib: Library)
    requires top < CRL_FP
    ensures 0 in CertsIn(Chained(top)) && 0 in GraphIn(Chained(top), Asking(anchor), lib).certs
    ensures SearchIn(Chained(top), Asking(anchor), lib)
         == SearchOf(GraphIn(Chained(top), Asking(anchor), lib), 0, MAX_PATH_LEN)
  {
    hide SearchOf, SearchRun, IsLadder, CertsIn;
    ChainedCerts(top);
    ChainIsLadder(top, anchor, lib);
    LadderRun(GraphIn(Chained(top), Asking(anchor), lib), top, anchor, MAX_PATH_LEN);
  }

  /** The CRL is always touched, and no other evidence. */
  lemma ChainTouched(top: nat, anchor: nat, lib: Library)
    requires 1 <= top < CRL_FP && 0 in CertsIn(Chained(top))
    requires (0, 1) in SearchIn(Chained(top), Asking(anchor), lib).probes
    requires {0} <= SearchIn(Chained(top), Asking(anchor), lib).touched <= Chained(top).Keys
    ensures TouchedIn(Chained(top), Asking(anchor), lib)
         == SearchIn(Chained(top), Asking(anchor), lib).touched + {CRL_FP}
  {
    hide SearchIn, AskedAll, CertsIn, EvidenceIn;
    var q, objects := Asking(anchor), Chained(top);
    var ev := EvidenceIn(objects, q, lib);
    ChainedCerts(top);
    ChainedEvidence(top, q, lib);
    ProbesCovered(objects, q, lib, 0, 1);
    assert CRL_FP in Relevant(ev, Rung(0), AuthorityOf(Rung(1)));
    TouchedIsEvidence(ev, CallsOf(CertsIn(objects), SearchIn(objects, q, lib).probes));
  }

  lemma ShorterChain(top: nat, m: nat)
    requires m <= top < CRL_FP
    ensures Restrict(Chained(top), Between(0, m) + {CRL_FP}) == Chained(m)
  {
  }

  /** A chain without its anchor comes down to its first two certificates. */
  lemma ShortChainSettles(top: nat, anchor: nat, lib: Library)
    requires 1 <= top < anchor && top < CRL_FP
    ensures 0 in CertsIn(Chained(top)) && 0 in CertsIn(Chained(1))
    ensures Settle(Chained(top), Asking(anchor), lib) == Some(Chained(1))
    ensures SearchIn(Chained(top), Asking(anchor), lib).path == None
    ensures SearchIn(Chained(top), Asking(anchor), lib).proof
         == Some(Proof(true, [Branch([0, 1], Failure(1, NoTrustedAnchor))]))
  {
    hide SearchIn, TouchedIn, IsLadder, CertsIn, GraphIn, SearchOf;
    var q := Asking(anchor);
    ChainedCerts(top);
    ChainedCerts(1);
    ChainSearch(top, anchor, lib);
    ChainIsLadder(top, anchor, lib);
    DeadEndSearch(GraphIn(Chained(top), q, lib), top, anchor, MAX_PATH_LEN);
    ChainTouched(top, anchor, lib);
    assert {0, 1} == Between(0, 1);
    if top > 1 {
      assert 2 in Chained(top).Keys;
      ShorterChain(top, 1);
      ShortChainSettles(1, anchor, lib);
    }
  }

  /** A path of 33 certificates, one more than the documented limit, is found and reported. */
  lemma ThirtyThreeIsFound(input: Input, lib: Library, signing: Signing)
    requires input.question == Asking(32)
    ensures var result := AdjudicationOf(Chained(32), input, lib, signing);
            result.Decided? && result.report.path == Some(Rungs(32)) && |Rungs(32)| == MAX_PATH_LEN + 1
  {
    hide SearchIn, TouchedIn, IsLadder, CertsIn, GraphIn, SearchOf, LedgerIn, CheckArtifact, VerdictOn, TraceOf,
        PoliciesOn;
    var q, g := Asking(32), GraphIn(Chained(32), Asking(32), lib);
    ChainedCerts(32);
    ChainSearch(32, 32, lib);
    ChainIsLadder(32, 32, lib);
    LadderAnchors(g, 32, 32);
    LimitIsExceeded(g, 32);
    SearchProbes.FoundIsAsked(g, 0, MAX_PATH_LEN);
    assert (Rungs(32)[0], Rungs(32)[1]) in SearchIn(Chained(32), q, lib).probes;
    ChainTouched(32, 32, lib);
    assert Settle(Chained(32), q, lib) == Some(Chained(32));
  }

  lemma ChainIsFit(top: nat, lib: Library)
    requires top < CRL_FP
    ensures GoodPath(Chained(top), Asking(top), lib, Rungs(top))
  {
    hide IsLadder, CertsIn, EvidenceIn, FitPath, ValidPath, GraphOf;
    var q, objects := Asking(top), Chained(top);
    ChainIsLadder(top, top, lib);
    LadderIsValid(GraphIn(objects, q, lib), top);
    FitPathMeans(CertsIn(objects), EvidenceIn(objects, q, lib), q, lib, Rungs(top));
  }

  lemma LongChainSettles(lib: Library)
    ensures 0 in CertsIn(Chained(33)) && Settle(Chained(33), Asking(33), lib) == Some(Chained(1))
  {
    hide SearchIn, TouchedIn, IsLadder, CertsIn, GraphIn, SearchOf;
    var q, objects := Asking(33), Chained(33);
    ChainedCerts(33);
    ChainSearch(33, 33, lib);
    ChainIsLadder(33, 33, lib);
    OneTooMany(GraphIn(objects, q, lib), 32);
    ChainTouched(33, 33, lib);
    ShorterChain(33, 32);
    assert 33 in Chained(33).Keys && 33 !in Between(0, 32);
    ShortChainSettles(32, 33, lib);
  }

  /** A fit path of 34 certificates is there, and is not found; yet the exploration is reported as
      complete, since the chain's top was never touched. The certificates are coherent: the
      status cache has no part in this. */
  lemma CompletenessIsOfThePack(input: Input, lib: Library, signing: Signing)
    requires input.question == Asking(33)
    ensures Coherent(CertsIn(Chained(33)))
    ensures GoodPath(Chained(33), Asking(33), lib, Rungs(33)) && |Rungs(33)| == 34
    ensures var result := AdjudicationOf(Chained(33), input, lib, signing);
            && result.Decided? && result.report.path == None
            && result.report.proof == Some(Proof(true, [Branch([0, 1], Failure(1, NoTrustedAnchor))]))
            && result.active == {0, 1, CRL_FP}
  {
    hide SearchIn, Settle, CertsIn, GoodPath, LedgerIn, CheckArtifact, VerdictOn, TraceOf, PoliciesOn, Coherent;
    ChainedCoherent(33);
    ChainIsFit(33, lib);
    LongChainSettles(lib);
    ShortChainSettles(1, 33, lib);
    ChainedCerts(1);
    assert Between(0, 1) + {CRL_FP} == {0, 1, CRL_FP};
  }
}
