/** Why coherence is asked for. A root without a subject key identifier stands beside a
    cross-certificate of the same name and key that has one, and the CRLs name identifiers.
    What is answered about the one is told of the other: this can hide the only fit path, and it
    can have a path found where none is fit. */
module CacheOrder {
  import opened Basics
  import opened Certificates
  import opened Revocation
  import RevocationAccounting
  import opened RevocationLedger
  import opened RevocationViews
  import opened SearchSpec
  import opened SearchPaths
  import opened SearchMemory
  import opened Worlds
  import opened Explorers
  import opened Shrinking
  import opened Settling
  import opened Reports
  import opened PathMeaning
  import opened Verdicts
  import opened LongChains

  const SIGNER: Token := 1
  const CROSS: Fp := 1
  const ROOT: Fp := 2

  /** The signer's certificate pins no key. */
  const LEAF := Cert(0, SIGNER, NAME, 0, None, None, Key(1, true), true, {KEY}, 0, 10, false, None, None,
                     Some({CodeSigning}), false, NO_NAMES, NO_POLICIES)

  /** An issuer by one name and key, with this identifier. */
  function Issuer(fp: Fp, ski: Option<Token>): Cert {
    Cert(fp, NAME, NAME, fp, ski, None, KEY, true, {KEY}, 0, 10, true, None, None, None, false, NO_NAMES, NO_POLICIES)
  }

  /** A CRL by that key, under another identifier. */
  const OTHER_CRL := Crl(NAME, Some(6), None, Some(1), None, 5, Some(10), map[], true, {KEY}, false)

  const CROSSED: Objects := map[
    0 := CertItem(LEAF, None), CROSS := CertItem(Issuer(CROSS, Some(5)), None),
    ROOT := CertItem(Issuer(ROOT, None), None), CRL_FP := CrlItem(OTHER_CRL, 5)]

  const QUESTION := Asking(ROOT)

  const CROSSED_CERTS: map<Fp, Cert> := map[0 := LEAF, CROSS := Issuer(CROSS, Some(5)), ROOT := Issuer(ROOT, None)]

  lemma CrossedCertsIn()
    ensures CertsIn(CROSSED) == CROSSED_CERTS
  {
  }

  lemma CrossedParts(lib: Library)
    ensures CertsIn(CROSSED) == CROSSED_CERTS
    ensures EvidenceIn(CROSSED, QUESTION, lib)
         == Evidence(map[CRL_FP := Received(OTHER_CRL, 5)], map[], 5, 5, lib.hashes)
  {
    CrossedCertsIn();
    hide CertsIn;
    var ev := EvidenceIn(CROSSED, QUESTION, lib);
    assert ev.crls == map[CRL_FP := Received(OTHER_CRL, 5)];
    assert ev.ocsps == map[];
  }

  /** Under the root the signer's certificate is GOOD; under the cross-certificate the CRL is
      another key's, and nothing is known. */
  lemma CrossedStatuses(lib: Library)
    ensures StatusIn(CertsIn(CROSSED), EvidenceIn(CROSSED, QUESTION, lib), 0, ROOT) == GoodStatus
    ensures StatusIn(CertsIn(CROSSED), EvidenceIn(CROSSED, QUESTION, lib), 0, CROSS) == UnknownStatus
  {
    hide ConclusionOf, EvidenceIn;
    var ev := EvidenceIn(CROSSED, QUESTION, lib);
    CrossedParts(lib);
    QuietCrl(ev, OTHER_CRL, LEAF, AuthorityOf(Issuer(ROOT, None)));
    OneCrlUnknown(ev, LEAF, AuthorityOf(Issuer(CROSS, Some(5))));
  }

  lemma OneCrlUnknown(ev: Evidence, cert: Cert, auth: Authority)
    requires ev.crls == map[CRL_FP := Received(OTHER_CRL, 5)] && ev.ocsps == map[] && ev.cutoff == 5
    requires auth.ski == Some(5)
    ensures ConclusionOf(ev, cert, auth).status == UnknownStatus
  {
    hide IsView, AnyDefective, SelectedView;
    NothingUsable(ev, cert, auth);
    SelectedIsBest(ev, cert, auth);
  }

  lemma NothingUsable(ev: Evidence, cert: Cert, auth: Authority)
    requires ev.crls == map[CRL_FP := Received(OTHER_CRL, 5)] && ev.ocsps == map[] && ev.cutoff == 5
    requires auth.ski == Some(5)
    ensures !AnyDefective(ev, cert, auth) && forall id :: !IsView(ev, cert, auth, id)
  {
    assert CrlFate(ev, auth, CRL_FP) == WrongKey;
    hide CrlFate;
    forall id ensures !IsView(ev, cert, auth, id) {
    }
  }

  lemma CrossedGraph(objects: Objects, lib: Library)
    requires CertsIn(objects) == CROSSED_CERTS
    ensures var g := GraphIn(objects, QUESTION, lib);
            && g.certs == {0, CROSS, ROOT} && g.anchors == {ROOT} && g.leafCheck(0) == None
            && OnGraph(g, [0]) && Open(g, [0]) == [CROSS, ROOT] && IsParent(g, CROSS, ROOT)
            && g.plain([0], CROSS) == None && g.plain([0], ROOT) == None && g.key(CROSS) == g.key(ROOT)
  {
    hide StatusIn, TerminalFailure, EvidenceIn, CertsIn;
    var g := GraphIn(objects, QUESTION, lib);
    assert IsParent(g, 0, CROSS) && IsParent(g, 0, ROOT) && !IsParent(g, 0, 0) && IsParent(g, CROSS, ROOT);
    AscendingUnique(Open(g, [0]), [CROSS, ROOT]);
    assert BelowCount(CertsIn(objects), [0], 1) == 0;
  }

  lemma CrossedAnswers(lib: Library)
    ensures var g := GraphIn(CROSSED, QUESTION, lib);
            g.status(0, CROSS) == UnknownStatus && g.status(0, ROOT) == GoodStatus
  {
    hide StatusIn, TerminalFailure, EvidenceIn, CertsIn;
    CrossedParts(lib);
    CrossedStatuses(lib);
  }

  /** What is remembered of a question about the one is the answer about the other. */
  ghost predicate Misled(g: Graph, asked: Probes) {
    Told(g, asked, 0, CROSS) == UnknownStatus && Told(g, asked + [(0, CROSS)], 0, ROOT) == UnknownStatus
  }

  lemma MisledFromTheStart(lib: Library)
    ensures Misled(GraphIn(CROSSED, QUESTION, lib), [])
    ensures Misled(GraphIn(CROSSED, QUESTION, lib), [(0, CROSS), (0, ROOT)])
  {
    hide GraphIn;
    var g := GraphIn(CROSSED, QUESTION, lib);
    CrossedParts(lib);
    CrossedGraph(CROSSED, lib);
    CrossedAnswers(lib);
    var first: Probes := [(0, CROSS)];
    assert Heard(g, [], 0, CROSS) == None;
    assert first[..0] == [] && [] + first == first;
    assert Heard(g, first, 0, ROOT) == Some(CROSS);
    assert Heard(g, first, 0, CROSS) == Some(CROSS);
    HeardStays(g, first, [(0, CROSS), (0, ROOT)], 0, CROSS);
    HeardStays(g, first, [(0, CROSS), (0, ROOT)] + first, 0, ROOT);
  }

  const NOT_GOOD := Failure(0, RevocationNotGood(UnknownStatus))

  lemma OneRejected(g: Graph, asked: Probes, p: Fp, depth: int)
    requires OnGraph(g, [0]) && p in g.certs && p != 0 && g.plain([0], p) == None
    requires Told(g, asked, 0, p) == UnknownStatus
    ensures ExploreOne(g, asked, [0], p, depth) == Visit(None, false, {p}, [(0, p)], 1, [Branch([0, p], NOT_GOOD)])
  {
    assert EdgeFailure(Recalling(g, asked), [0], p) == Some(NOT_GOOD);
    assert [0] + [p] == [0, p];
  }

  /** Both candidates are rejected for want of a known status. */
  lemma BothRejected(lib: Library, asked: Probes, depth: int)
    requires Misled(GraphIn(CROSSED, QUESTION, lib), asked)
    ensures OnGraph(GraphIn(CROSSED, QUESTION, lib), [0])
    ensures Explore(GraphIn(CROSSED, QUESTION, lib), asked, [0], depth)
         == Visit(None, false, {CROSS, ROOT}, [(0, CROSS), (0, ROOT)], 3,
                  [Branch([0, CROSS], NOT_GOOD), Branch([0, ROOT], NOT_GOOD)])
  {
    hide GraphIn, CertsIn, ExploreOne, Told, Open, CanReach;
    var g := GraphIn(CROSSED, QUESTION, lib);
    CrossedParts(lib);
    CrossedGraph(CROSSED, lib);
    OneRejected(g, asked, CROSS, depth);
    OneRejected(g, asked + [(0, CROSS)], ROOT, depth);
    var parents := [CROSS, ROOT];
    assert ExploreFirst(g, asked, [0], parents, 0, depth) == Spend(0);
    assert asked + [] == asked;
    assert ExploreFirst(g, asked, [0], parents, 1, depth)
        == Visit(None, false, {CROSS}, [(0, CROSS)], 1, [Branch([0, CROSS], NOT_GOOD)]);
    assert ExploreFirst(g, asked, [0], parents, 2, depth)
        == Visit(None, false, {CROSS, ROOT}, [(0, CROSS), (0, ROOT)], 2,
                 [Branch([0, CROSS], NOT_GOOD), Branch([0, ROOT], NOT_GOOD)]);
  }

  lemma {:induction false} CrossedRounds(lib: Library, n: nat)
    requires n >= 1
    ensures 0 in GraphIn(CROSSED, QUESTION, lib).certs
    ensures RoundsRun(GraphIn(CROSSED, QUESTION, lib), 0, n)
         == Visit(None, false, {0, CROSS, ROOT}, [(0, CROSS), (0, ROOT)], 3, [])
  {
    hide GraphIn, CertsIn, Explore;
    CrossedParts(lib);
    CrossedGraph(CROSSED, lib);
    MisledFromTheStart(lib);
    BothRejected(lib, [], 1);
    if n > 1 {
      CrossedRounds(lib, n - 1);
    }
  }

  lemma CrossedSearch(lib: Library)
    ensures 0 in CertsIn(CROSSED)
    ensures var s := SearchIn(CROSSED, QUESTION, lib);
            && s.path == None && s.touched == {0, CROSS, ROOT} && s.spent == 6 && (0, CROSS) in s.probes
            && s.proof == Some(Proof(true, [Branch([0, CROSS], NOT_GOOD), Branch([0, ROOT], NOT_GOOD)]))
  {
    hide GraphIn, Explore, CertsIn;
    CrossedParts(lib);
    CrossedGraph(CROSSED, lib);
    MisledFromTheStart(lib);
    CrossedRounds(lib, MAX_PATH_LEN);
    BothRejected(lib, [(0, CROSS), (0, ROOT)], MAX_PATH_LEN);
  }

  lemma CrossedSettles(lib: Library)
    ensures 0 in CertsIn(CROSSED) && Settle(CROSSED, QUESTION, lib) == Some(CROSSED)
  {
    hide SearchIn, AskedAll, CertsIn, EvidenceIn;
    var ev := EvidenceIn(CROSSED, QUESTION, lib);
    CrossedParts(lib);
    CrossedSearch(lib);
    ProbesCovered(CROSSED, QUESTION, lib, 0, CROSS);
    assert CRL_FP in Relevant(ev, LEAF, AuthorityOf(Issuer(CROSS, Some(5))));
    TouchedWithin(CROSSED, QUESTION, lib);
    assert TouchedIn(CROSSED, QUESTION, lib) == CROSSED.Keys;
  }

  lemma RootIsFit(lib: Library)
    ensures GoodPath(CROSSED, QUESTION, lib, [0, ROOT])
  {
    hide GraphIn, CertsIn, EvidenceIn, FitPath, TerminalFailure;
    var g := GraphIn(CROSSED, QUESTION, lib);
    CrossedParts(lib);
    CrossedGraph(CROSSED, lib);
    CrossedAnswers(lib);
    assert [0, ROOT][..1] == [0];
    assert Climbs(g, [0]);
    assert ROOT in Open(g, [0]);
    assert EdgeFailure(g, [0], ROOT) == None;
    assert Climbs(g, [0, ROOT]);
    RootTerminal(CROSSED, lib);
    CrossedIsGraph(CROSSED, lib);
    FitPathMeans(CertsIn(CROSSED), EvidenceIn(CROSSED, QUESTION, lib), QUESTION, lib, [0, ROOT]);
  }

  lemma CrossedIsGraph(objects: Objects, lib: Library)
    ensures GraphIn(objects, QUESTION, lib)
         == GraphOf(CertsIn(objects), EvidenceIn(objects, QUESTION, lib), QUESTION, lib)
  {
  }

  lemma RootTerminal(objects: Objects, lib: Library)
    requires CertsIn(objects) == CROSSED_CERTS
    ensures GraphIn(objects, QUESTION, lib).terminal([0, ROOT]) == None
  {
    hide TerminalFailure, EvidenceIn, CertsIn;
    assert AllIn(CertsIn(objects), [0, ROOT]);
    RulesHold(CertsAlong(CertsIn(objects), [0, ROOT]), ROOT, lib);
  }

  /** A fit path of two certificates is there, the exploration is complete, and no path is found:
      the root is refused for what was answered about the cross-certificate. So what VALID
      means on all the objects cannot be had without coherence. */
  lemma CacheHidesThePath(input: Input, lib: Library, signing: Signing)
    requires input.question == QUESTION
    ensures GoodPath(CROSSED, QUESTION, lib, [0, ROOT]) && !Coherent(CertsIn(CROSSED))
    ensures var result := AdjudicationOf(CROSSED, input, lib, signing);
            && result.Decided? && result.report.verdict != Valid && result.report.path == None
            && result.report.proof.Some? && result.report.proof.value.complete && result.active == CROSSED.Keys
  {
    hide SearchIn, Settle, CertsIn, GoodPath, LedgerIn, CheckArtifact, TraceOf, PoliciesOn, EvidenceIn;
    RootIsFit(lib);
    CrossedParts(lib);
    CrossedSearch(lib);
    CrossedSettles(lib);
    var certs := CertsIn(CROSSED);
    assert certs[0] in certs.Values && certs[CROSS] in certs.Values && certs[ROOT] in certs.Values;
    assert RevocationAccounting.SameQuestion(LEAF, Issuer(CROSS, Some(5)), Issuer(ROOT, None));
  }

  // ----- The other way round -------------------------------------------------------------------

  const OLDER_FP: Fp := 99
  const NEWER_FP: Fp := 98

  /** The older CRL revokes nothing; the newer one, under another identifier, all that is not the root. */
  const OLDER_CRL := Crl(NAME, Some(5), None, Some(1), None, 4, Some(10), map[], true, {KEY}, false)
  const NEWER_CRL := Crl(NAME, Some(6), None, Some(2), None, 5, Some(10), map[0 := Entry(1, None), 1 := Entry(1, None)],
                         true, {KEY}, false)

  const REVOKED: Objects := map[
    0 := CertItem(LEAF, None), CROSS := CertItem(Issuer(CROSS, Some(5)), None),
    ROOT := CertItem(Issuer(ROOT, None), None),
    OLDER_FP := CrlItem(OLDER_CRL, 5), NEWER_FP := CrlItem(NEWER_CRL, 5)]

  ghost predicate TwoCrls(ev: Evidence) {
    ev.crls == map[OLDER_FP := Received(OLDER_CRL, 5), NEWER_FP := Received(NEWER_CRL, 5)] && ev.ocsps == map[]
    && ev.cutoff == 5 && ev.signedAt == 5
  }

  lemma RevokedCerts()
    ensures CertsIn(REVOKED) == CROSSED_CERTS
  {
  }

  lemma RevokedCrls(lib: Library)
    ensures EvidenceIn(REVOKED, QUESTION, lib).crls
         == map[OLDER_FP := Received(OLDER_CRL, 5), NEWER_FP := Received(NEWER_CRL, 5)]
  {
  }

  lemma RevokedParts(lib: Library)
    ensures CertsIn(REVOKED) == CROSSED_CERTS && TwoCrls(EvidenceIn(REVOKED, QUESTION, lib))
  {
    RevokedCerts();
    RevokedCrls(lib);
    assert EvidenceIn(REVOKED, QUESTION, lib).ocsps == map[];
  }

  /** Under the cross-certificate only the older CRL counts. */
  lemma OlderIsBest(ev: Evidence, cert: Cert)
    requires TwoCrls(ev) && cert.issuer == NAME && cert.serial in {0, 1}
    ensures ConclusionOf(ev, cert, AuthorityOf(Issuer(CROSS, Some(5)))).status == GoodStatus
  {
    hide IsView, SelectedView;
    var auth := AuthorityOf(Issuer(CROSS, Some(5)));
    OlderCounts(ev, cert, auth);
    SelectedIsBest(ev, cert, auth);
    assert IsBest(ev, cert, auth, ViewOf(ev, cert, auth, CrlId(OLDER_FP)));
  }

  lemma OlderCounts(ev: Evidence, cert: Cert, auth: Authority)
    requires TwoCrls(ev) && cert.issuer == NAME && auth.key == KEY && auth.ski == Some(5)
    ensures forall id :: IsView(ev, cert, auth, id) <==> id == CrlId(OLDER_FP)
  {
    assert CrlFate(ev, auth, OLDER_FP) == CompleteCrl && CrlFate(ev, auth, NEWER_FP) == WrongKey;
    hide CrlFate;
  }

  lemma BothCount(ev: Evidence, cert: Cert, auth: Authority)
    requires TwoCrls(ev) && cert.issuer == NAME && auth.key == KEY && auth.ski == None
    ensures forall id :: IsView(ev, cert, auth, id) <==> id == CrlId(OLDER_FP) || id == CrlId(NEWER_FP)
  {
    assert CrlFate(ev, auth, OLDER_FP) == CompleteCrl && CrlFate(ev, auth, NEWER_FP) == CompleteCrl;
    hide CrlFate;
  }

  /** Under the root the newer one is best. */
  lemma NewerIsBest(ev: Evidence, cert: Cert)
    requires TwoCrls(ev) && cert.issuer == NAME && cert.serial in {0, 1}
    ensures ConclusionOf(ev, cert, AuthorityOf(Issuer(ROOT, None))).status == RevokedStatus
  {
    hide IsView, SelectedView;
    var auth := AuthorityOf(Issuer(ROOT, None));
    BothCount(ev, cert, auth);
    SelectedIsBest(ev, cert, auth);
    assert IsBest(ev, cert, auth, ViewOf(ev, cert, auth, CrlId(NEWER_FP)));
  }

  lemma RevokedAnswers(lib: Library)
    ensures GraphIn(REVOKED, QUESTION, lib).status(0, CROSS) == GoodStatus
  {
    hide ConclusionOf, TerminalFailure, EvidenceIn, CertsIn;
    RevokedParts(lib);
    OlderIsBest(EvidenceIn(REVOKED, QUESTION, lib), LEAF);
  }

  /** The last certificate below the root is revoked under it, whatever the path. */
  lemma NothingIsFit(lib: Library, path: Path)
    ensures !GoodPath(REVOKED, QUESTION, lib, path)
  {
    hide ConclusionOf, EvidenceIn, CertsIn, CertNames, CertPolicies, Unrevoked;
    var certs, ev := CertsIn(REVOKED), EvidenceIn(REVOKED, QUESTION, lib);
    RevokedParts(lib);
    if FitPath(certs, ev, path, QUESTION, lib) {
      var i := |path| - 2;
      assert path[i + 1] == ROOT && path[i] in certs && path[i] != ROOT;
      assert Unrevoked(certs, ev, path[i], path[i + 1]);
      UnrevokedMeans(certs, ev, path[i], path[i + 1]);
      NewerIsBest(ev, certs[path[i]]);
    }
  }

  lemma AnswersOfTheFirst(lib: Library)
    ensures var g := GraphIn(REVOKED, QUESTION, lib);
            Told(g, [], 0, CROSS) == GoodStatus && Told(g, [(0, CROSS)], 0, ROOT) == GoodStatus
  {
    hide GraphIn, CertsIn;
    RevokedParts(lib);
    CrossedGraph(REVOKED, lib);
    RevokedAnswers(lib);
    var g, first: Probes := GraphIn(REVOKED, QUESTION, lib), [(0, CROSS)];
    assert first[..0] == [];
    assert Heard(g, [], 0, ROOT) == None;
    assert Heard(g, first, 0, ROOT) == Some(CROSS);
  }

  /** In the first round the depth is used up at the cross-certificate, and the root is accepted for
      what was answered about it. */
  lemma FirstRound(lib: Library)
    ensures var g := GraphIn(REVOKED, QUESTION, lib);
            && OnGraph(g, [0])
            && Explore(g, [], [0], 1).found == Some([0, ROOT]) && Explore(g, [], [0], 1).spent == 4
  {
    hide GraphIn, CertsIn, Told, Open, CanReach;
    var g := GraphIn(REVOKED, QUESTION, lib);
    RevokedParts(lib);
    CrossedGraph(REVOKED, lib);
    AnswersOfTheFirst(lib);
    AnchorReaches(g, ROOT);
    ChildReaches(g, CROSS, ROOT);
    assert EdgeFailure(Recalling(g, []), [0], CROSS) == None;
    assert ExploreOne(g, [], [0], CROSS, 1) == Visit(None, true, {CROSS}, [(0, CROSS)], 1, []);
    RootAccepted(lib);
    var parents := [CROSS, ROOT];
    assert ExploreFirst(g, [], [0], parents, 0, 1) == Spend(0);
    assert [] + [(0, CROSS)] == [(0, CROSS)];
    assert ExploreFirst(g, [], [0], parents, 1, 1) == Visit(None, true, {CROSS}, [(0, CROSS)], 1, []);
    assert ExploreFirst(g, [], [0], parents, 2, 1)
        == Join(ExploreFirst(g, [], [0], parents, 1, 1), ExploreOne(g, [(0, CROSS)], [0], ROOT, 1));
  }

  lemma RootAccepted(lib: Library)
    requires OnGraph(GraphIn(REVOKED, QUESTION, lib), [0]) && ROOT in GraphIn(REVOKED, QUESTION, lib).certs
    ensures var v := ExploreOne(GraphIn(REVOKED, QUESTION, lib), [(0, CROSS)], [0], ROOT, 1);
            v.found == Some([0, ROOT]) && v.spent == 2
  {
    hide GraphIn, CertsIn, Told, Open, CanReach;
    var g := GraphIn(REVOKED, QUESTION, lib);
    RevokedParts(lib);
    CrossedGraph(REVOKED, lib);
    AnswersOfTheFirst(lib);
    RootTerminal(REVOKED, lib);
    assert EdgeFailure(Recalling(g, [(0, CROSS)]), [0], ROOT) == None;
    assert [0] + [ROOT] == [0, ROOT];
  }

  /** The artifact is signed and the verdict VALID, although no path is fit: the signer's
      certificate and the cross-certificate are both revoked under the root. */
  lemma CacheFindsAPath(input: Input, lib: Library, signing: Signing)
    requires input.question == QUESTION && Signed(LEAF, input, signing)
    ensures forall path :: !GoodPath(REVOKED, QUESTION, lib, path)
    ensures var result := AdjudicationOf(REVOKED, input, lib, signing);
            result.Decided? && result.report.verdict == Valid && result.report.path == Some([0, ROOT])
  {
    hide GraphIn, Settle, CertsIn, GoodPath, Explore, RoundsRun;
    forall path ensures !GoodPath(REVOKED, QUESTION, lib, path) {
      NothingIsFit(lib, path);
    }
    RevokedParts(lib);
    RevokedSearch(lib);
    SettlingKeepsThePath(REVOKED, QUESTION, lib);
    VerdictMeans(REVOKED, input, lib, signing);
  }

  lemma RevokedSearch(lib: Library)
    ensures 0 in CertsIn(REVOKED)
    ensures var s := SearchIn(REVOKED, QUESTION, lib); s.path == Some([0, ROOT]) && s.spent == 4
  {
    hide GraphIn, CertsIn, Explore;
    var g := GraphIn(REVOKED, QUESTION, lib);
    RevokedParts(lib);
    CrossedGraph(REVOKED, lib);
    FirstRound(lib);
    RoundsCost(g, 0, 1, MAX_PATH_LEN);
  }
}
