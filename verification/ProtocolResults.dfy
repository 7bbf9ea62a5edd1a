/** What clients of the service can rely on, over every interleaving of steps. */
module ProtocolResults {
  import opened Basics
  import opened Certificates
  import opened Worlds
  import opened Reports
  import opened Inputs
  import opened StoredObjects
  import opened Uploads
  import opened Packs
  import opened Protocol
  import opened ProtocolSafety
  import opened ProtocolPins
  import Verdicts
  import PathMeaning
  import LateEvidence

  /** Hashing is collision-free: manifests, adjudications and requests have digests of their own. */
  ghost predicate NoCollisions(env: Environment, digestOf: (RequestId, Call) -> Token) {
    && env.dec.Sound()
    && (forall m, n :: env.manifestDigest(m) == env.manifestDigest(n) ==> m == n)
    && (forall d, i, e, j :: env.adjudicationId(d, i) == env.adjudicationId(e, j) ==> d == e && i == j)
    && (forall r, c, d :: digestOf(r, c) == digestOf(r, d) ==> c == d)
  }

  // ----- Sealed sets -------------------------------------------------------------------------

  /** A set sealed at some point of a run keeps its digest and its objects from then on, and the
      digest is that of the manifest of its current objects. */
  lemma SealedSetsNeverChange(env: Environment, digestOf: (RequestId, Call) -> Token, actions: seq<Action>, n: nat,
          id: SetId)
    requires n <= |actions|
    requires var t := Run(env, digestOf, actions[..n]).tables; id in t.sets && t.sets[id].SealedSet?
    ensures var before, t := Run(env, digestOf, actions[..n]).tables, Run(env, digestOf, actions).tables;
            && id in t.sets && t.sets[id] == before.sets[id] && RowsIn(t, id) == RowsIn(before, id)
            && t.sets[id].manifest == ManifestOf(RowsIn(t, id))
            && t.sets[id].digest == env.manifestDigest(ManifestOf(RowsIn(t, id)))
  {
    hide Run, ManifestOf, WellFiled, WithinLimits, CountsOf, AdjudicationsOk, ResponsesOk, ClientOk;
    RunKeeps(env, digestOf, actions, n);
    RunOk(env, digestOf, actions);
    var t := Run(env, digestOf, actions).tables;
    assert SetOk(env, t, id);
  }

  /** No set ever has more than 100,000 certificates, 2,000 CRLs and OCSP responses, or 1,000,000
      entries in these. */
  lemma LimitsAlwaysHold(env: Environment, digestOf: (RequestId, Call) -> Token, actions: seq<Action>, id: SetId,
          entries: set<(Fp, nat)>)
    requires EntriesIn(RowsIn(Run(env, digestOf, actions).tables, id), entries)
    ensures var rows := RowsIn(Run(env, digestOf, actions).tables, id);
            && |OfKind(rows, CertificateKind)| <= 100_000
            && |OfKind(rows, CrlKind)| + |OfKind(rows, OcspKind)| <= 2_000
            && |entries| <= 1_000_000
  {
    hide Run, ManifestOf, WellFiled, CountsOf, AdjudicationsOk, ResponsesOk, ClientOk, OfKind, EntriesIn;
    RunOk(env, digestOf, actions);
    var t := Run(env, digestOf, actions).tables;
    CountsMean(RowsIn(t, id), entries);
    if id in t.sets {
      assert SetOk(env, t, id);
    } else {
      assert RowsIn(t, id) == map[];
      NothingCounted();
    }
  }

  lemma NothingCounted()
    ensures WithinLimits(CountsOf(map[]))
  {
  }

  // ----- Stored adjudications ------------------------------------------------------------------

  lemma SealedAlike(env: Environment, t: Tables, a: SetId, b: SetId)
    requires SetsOk(env, t) && env.dec.Sound()
    requires forall m, n :: env.manifestDigest(m) == env.manifestDigest(n) ==> m == n
    requires a in t.sets && b in t.sets && t.sets[a].SealedSet? && t.sets[b].SealedSet?
    requires t.sets[a].digest == t.sets[b].digest
    ensures RowsIn(t, a) == RowsIn(t, b)
  {
    hide ManifestOf, WellFiled, WithinLimits, CountsOf;
    assert SetOk(env, t, a) && SetOk(env, t, b);
    ManifestDeterminesRows(env.dec, RowsIn(t, a), RowsIn(t, b));
  }

  /** A stored adjudication is what the engine makes of the objects of any set that is sealed
      to its digest: not only of the one it was asked about. */
  lemma StoredResultsAreTheEngines(env: Environment, digestOf: (RequestId, Call) -> Token, actions: seq<Action>,
          id: Token, setId: SetId)
    requires NoCollisions(env, digestOf)
    requires var t := Run(env, digestOf, actions).tables;
             && id in t.adjudications && setId in t.sets && t.sets[setId].SealedSet?
             && t.sets[setId].digest == t.adjudications[id].digest
    ensures var t := Run(env, digestOf, actions).tables;
            var row := t.adjudications[id];
            && Usable(row.input, env.dec.texts)
            && EngineRun(env, RowsIn(t, setId), row.input, row.digest).Computed?
            && EngineRun(env, RowsIn(t, setId), row.input, row.digest).result == row.result
  {
    hide Run, ManifestOf, EngineRun, ResponsesOk, ClientOk, SetOk, Usable, Normalized;
    RunOk(env, digestOf, actions);
    var t := Run(env, digestOf, actions).tables;
    var row := t.adjudications[id];
    assert RowFits(env, t, id, row);
    SealedAlike(env, t, row.setId, setId);
  }

  /** No canonical form of a text in an input of the run reads as something else. */
  ghost predicate AllTruthful(env: Environment, actions: seq<Action>) {
    forall a :: a in actions && a.Beginning? && a.raw.Obj? ==> Truthful(Content(a.raw), env.dec.texts)
  }

  lemma AskedIsNormal(env: Environment, a: Action, rid: RequestId, setId: SetId, input: RawInput)
    requires Asks(env, a, rid, setId, input)
    ensures Normalized(input, env.dec.texts) == Normal(input) <==> InCanonicalForm(input, env.dec.texts)
    ensures && a.raw.Obj?
            && (Truthful(Content(a.raw), env.dec.texts) && Usable(input, env.dec.texts) ==>
                  InCanonicalForm(input, env.dec.texts))
  {
    hide RawError, WellTyped, FirstError, NormalForm, Content, InCanonicalForm, Legible;
    RawErrorMeans(a.raw, env.dec.texts);
    NormalizingAgain(Content(a.raw), env.dec.texts);
  }

  /** A stored pack is accepted by the verifier exactly when the signature and the times of its
      input are in canonical form; all packs are unless a canonical form reads as something else. */
  lemma StoredPacksAreAccepted(env: Environment, digestOf: (RequestId, Call) -> Token, actions: seq<Action>, id: Token)
    requires id in Run(env, digestOf, actions).tables.adjudications
    ensures var row := Run(env, digestOf, actions).tables.adjudications[id];
            && (Accepts(env, row.pack) <==> InCanonicalForm(row.input, env.dec.texts))
            && (AllTruthful(env, actions) ==> Accepts(env, row.pack))
  {
    hide Run, ManifestOf, EngineRun, ResponsesOk, ClientOk, Usable, Normalized, Accepts, CertsIn, ObjectsOf, WellFiled,
        CountsOf, WithinLimits, InCanonicalForm, AllTruthful;
    RunOk(env, digestOf, actions);
    var t := Run(env, digestOf, actions).tables;
    var row := t.adjudications[id];
    assert RowFits(env, t, id, row);
    assert SetOk(env, t, row.setId);
    BuiltPackIsAccepted(env, RowsIn(t, row.setId), row.input);
    StoredInputs(env, digestOf, actions, id);
  }

  lemma StoredInputs(env: Environment, digestOf: (RequestId, Call) -> Token, actions: seq<Action>, id: Token)
    requires id in Run(env, digestOf, actions).tables.adjudications
    ensures var input := Run(env, digestOf, actions).tables.adjudications[id].input;
            && (Normalized(input, env.dec.texts) == Normal(input) <==> InCanonicalForm(input, env.dec.texts))
            && (AllTruthful(env, actions) && Usable(input, env.dec.texts) ==> InCanonicalForm(input, env.dec.texts))
  {
    hide Run, Normalized, InCanonicalForm, Truthful, Usable, Validated;
    var row := Run(env, digestOf, actions).tables.adjudications[id];
    RowsComeFromRequests(env, digestOf, actions, id);
    var k :| 0 <= k < |actions| && Asks(env, actions[k], row.request, row.setId, row.input);
    assert actions[k] in actions;
    AskedIsNormal(env, actions[k], row.request, row.setId, row.input);
  }

  /** The artifact's signature, as it is in the texts of the input, is one by this certificate's key. */
  predicate SignedByKey(leaf: Cert, raw: RawInput, texts: Texts, signing: Signing) {
    leaf.key.inProfile && signing.suits(raw.algorithm, leaf.key) && texts.decode64(raw.signature).Some?
    && signing.verifies(leaf.key, raw.algorithm, texts.decode64(raw.signature).value, raw.artifactDigest)
  }

  /** The set has been sealed to the digest of the stored adjudication, whose input poses `q`. */
  ghost predicate SealedToRow(env: Environment, t: Tables, id: Token, setId: SetId, q: Question) {
    && id in t.adjudications && setId in t.sets && t.sets[setId].SealedSet?
    && t.sets[setId].digest == t.adjudications[id].digest
    && Poses(t.adjudications[id].input, env.dec.texts, q)
  }

  /** The objects of a set, as the parsers read them. */
  function ObjectsIn(env: Environment, t: Tables, setId: SetId): Objects {
    ObjectsOf(env.dec, RowsIn(t, setId))
  }

  /** A stored verdict is the engine's on the objects of any set sealed to its digest, about the
      question that its input poses. */
  lemma StoredRun(env: Environment, digestOf: (RequestId, Call) -> Token, actions: seq<Action>, id: Token,
                  setId: SetId, q: Question)
    requires NoCollisions(env, digestOf)
    requires SealedToRow(env, Run(env, digestOf, actions).tables, id, setId, q)
    ensures var t := Run(env, digestOf, actions).tables;
            var row, objects := t.adjudications[id], ObjectsIn(env, t, setId);
            && Usable(row.input, env.dec.texts)
            && var input := EngineInput(row.input, env.dec.texts);
            var result := AdjudicationOf(objects, input, env.lib, env.signing);
            && input.question == q && result.Decided? && result.report == row.result.report
  {
    hide Run, ManifestOf, SetsOk, ResponsesOk, ClientOk, Usable, Normalized, CertsIn, ObjectsOf, AdjudicationOf,
        EngineInput, SealedAs, NoCollisions, Poses;
    StoredResultsAreTheEngines(env, digestOf, actions, id, setId);
    OneQuestion(Run(env, digestOf, actions).tables.adjudications[id].input, env.dec.texts);
  }

  /** VALID only if the artifact's signature holds and the objects have a passable path of at most 33
      certificates; and VALID if the signature holds and they have a safe one. */
  ghost predicate VerdictBounded(env: Environment, objects: Objects, raw: RawInput, q: Question, verdict: Verdict) {
    && q.leaf in CertsIn(objects)
    && var signed := SignedByKey(CertsIn(objects)[q.leaf], raw, env.dec.texts, env.signing);
    && (verdict == Valid ==> signed && exists r :: Verdicts.PassablePath(objects, q, env.lib, r) && |r| <= 33)
    && (signed && (exists r :: Verdicts.SafePath(objects, q, env.lib, r) && |r| <= 33) ==> verdict == Valid)
  }

  /** VALID exactly if the artifact's signature holds and the objects have a fit path of at most 33. */
  ghost predicate VerdictRight(env: Environment, objects: Objects, raw: RawInput, q: Question, verdict: Verdict) {
    && q.leaf in CertsIn(objects)
    && (verdict == Valid <==>
          && SignedByKey(CertsIn(objects)[q.leaf], raw, env.dec.texts, env.signing)
          && Verdicts.HasFitPath(objects, q, env.lib, 33))
  }

  lemma VerdictsMean(env: Environment, objects: Objects, raw: RawInput, q: Question)
    requires Usable(raw, env.dec.texts) && Poses(raw, env.dec.texts, q)
    requires AdjudicationOf(objects, EngineInput(raw, env.dec.texts), env.lib, env.signing).Decided?
    ensures var input := EngineInput(raw, env.dec.texts);
            var verdict := AdjudicationOf(objects, input, env.lib, env.signing).report.verdict;
            && VerdictBounded(env, objects, raw, q, verdict)
            && (Coherent(CertsIn(objects)) ==> VerdictRight(env, objects, raw, q, verdict))
  {
    hide CertsIn, AdjudicationOf, EngineInput, Usable, Poses, Coherent, Verdicts.PassablePath, Verdicts.SafePath,
        Verdicts.HasFitPath;
    OneQuestion(raw, env.dec.texts);
    var input := EngineInput(raw, env.dec.texts);
    Verdicts.VerdictMeans(objects, input, env.lib, env.signing);
    if Coherent(CertsIn(objects)) {
      Verdicts.ValidMeans(objects, input, env.lib, env.signing);
    }
  }

  /** Whatever set is sealed to the digest of a stored adjudication, the verdict is bounded by the
      passable and the safe paths of the set as a whole, for the question that the texts of the
      stored input pose. */
  lemma StoredVerdictsMean(env: Environment, digestOf: (RequestId, Call) -> Token, actions: seq<Action>, id: Token,
          setId: SetId, q: Question)
    requires NoCollisions(env, digestOf)
    requires SealedToRow(env, Run(env, digestOf, actions).tables, id, setId, q)
    ensures var t := Run(env, digestOf, actions).tables;
            var row := t.adjudications[id];
            VerdictBounded(env, ObjectsIn(env, t, setId), row.input, q, row.result.report.verdict)
  {
    StoredVerdict(env, digestOf, actions, id, setId, q);
  }

  /** If the certificates are coherent, passable and safe paths are the fit ones: a stored verdict is
      VALID exactly when the artifact's signature holds and any set that is sealed to its
      digest has, as a whole, a fit path of at most 33 certificates. */
  lemma StoredVerdictsAreRight(env: Environment, digestOf: (RequestId, Call) -> Token, actions: seq<Action>, id: Token,
          setId: SetId, q: Question)
    requires NoCollisions(env, digestOf)
    requires SealedToRow(env, Run(env, digestOf, actions).tables, id, setId, q)
    requires Coherent(CertsIn(ObjectsIn(env, Run(env, digestOf, actions).tables, setId)))
    ensures var t := Run(env, digestOf, actions).tables;
            var row := t.adjudications[id];
            VerdictRight(env, ObjectsIn(env, t, setId), row.input, q, row.result.report.verdict)
  {
    StoredVerdict(env, digestOf, actions, id, setId, q);
  }

  lemma StoredVerdict(env: Environment, digestOf: (RequestId, Call) -> Token, actions: seq<Action>, id: Token,
          setId: SetId, q: Question)
    requires NoCollisions(env, digestOf)
    requires SealedToRow(env, Run(env, digestOf, actions).tables, id, setId, q)
    ensures var t := Run(env, digestOf, actions).tables;
            var row, objects := t.adjudications[id], ObjectsIn(env, t, setId);
            && VerdictBounded(env, objects, row.input, q, row.result.report.verdict)
            && (Coherent(CertsIn(objects)) ==> VerdictRight(env, objects, row.input, q, row.result.report.verdict))
  {
    assert Poses(Run(env, digestOf, actions).tables.adjudications[id].input, env.dec.texts, q);
    hide Run, SealedToRow, Coherent, CertsIn, ObjectsIn, AdjudicationOf, EngineInput, Verdicts.Signed, SignedByKey,
        NoCollisions, Usable, VerdictBounded, VerdictRight, Poses;
    var t := Run(env, digestOf, actions).tables;
    StoredRun(env, digestOf, actions, id, setId, q);
    VerdictsMean(env, ObjectsIn(env, t, setId), t.adjudications[id].input, q);
  }

  /** The path leads from the certificate that the input names to an anchor that it names, over issuers
      with the right names and signatures, and all were in force when the artifact is said to
      be signed. */
  ghost predicate InForceAlong(certs: map<Fp, Cert>, raw: RawInput, texts: Texts, path: seq<Fp>) {
    && 0 < |path| <= 33 && (forall fp :: fp in path ==> fp in certs)
    && IsFingerprint(raw.leaf) && path[0] == FpOf(raw.leaf)
    && (exists a :: a in raw.anchors && IsFingerprint(a) && FpOf(a) == path[|path| - 1])
    && texts.parseTime(raw.signedAt).Some?
    && var at := texts.parseTime(raw.signedAt).value;
    && (forall fp :: fp in path ==> certs[fp].notBefore <= at <= certs[fp].notAfter && !certs[fp].unsupported)
    && (forall i :: 0 <= i < |path| - 1 ==>
          certs[path[i]].issuer == certs[path[i + 1]].subject
          && certs[path[i + 1]].key in certs[path[i]].verifiesUnder)
  }

  lemma PathInForce(env: Environment, objects: Objects, raw: RawInput, q: Question)
    requires Usable(raw, env.dec.texts) && Poses(raw, env.dec.texts, q)
    requires AdjudicationOf(objects, EngineInput(raw, env.dec.texts), env.lib, env.signing).Decided?
    ensures var report := AdjudicationOf(objects, EngineInput(raw, env.dec.texts), env.lib, env.signing).report;
            report.verdict == Valid ==>
              report.path.Some? && InForceAlong(CertsIn(objects), raw, env.dec.texts, report.path.value)
  {
    hide CertsIn, AdjudicationOf, EngineInput, Usable, IsFingerprint, FpOf, Verdicts.SafePath;
    OneQuestion(raw, env.dec.texts);
    var input := EngineInput(raw, env.dec.texts);
    Verdicts.VerdictMeans(objects, input, env.lib, env.signing);
    var report := AdjudicationOf(objects, input, env.lib, env.signing).report;
    if report.verdict == Valid {
      PathMeaning.AllInForce(CertsIn(objects), report.path.value, q, env.lib);
    }
  }

  /** What can be read off the certificates along the path of a stored VALID verdict. */
  lemma StoredPathsAreInForce(env: Environment, digestOf: (RequestId, Call) -> Token, actions: seq<Action>, id: Token,
          setId: SetId, q: Question)
    requires NoCollisions(env, digestOf)
    requires SealedToRow(env, Run(env, digestOf, actions).tables, id, setId, q)
    ensures var t := Run(env, digestOf, actions).tables;
            var row := t.adjudications[id];
            row.result.report.verdict == Valid ==>
              row.result.report.path.Some?
              && InForceAlong(CertsIn(ObjectsIn(env, t, setId)), row.input, env.dec.texts, row.result.report.path.value)
  {
    assert Poses(Run(env, digestOf, actions).tables.adjudications[id].input, env.dec.texts, q);
    hide Run, SealedToRow, CertsIn, ObjectsIn, AdjudicationOf, EngineInput, Verdicts.Signed, SignedByKey,
        NoCollisions, Usable, InForceAlong, Poses;
    var t := Run(env, digestOf, actions).tables;
    StoredRun(env, digestOf, actions, id, setId, q);
    PathInForce(env, ObjectsIn(env, t, setId), t.adjudications[id].input, q);
  }

  /** The rows without the evidence received after a time. */
  function ReceivedBy(rows: Rows, at: Instant): Rows {
    map fp | fp in rows && (rows[fp].kind == CertificateKind || (rows[fp].at.Some? && rows[fp].at.value <= at)) ::
      rows[fp]
  }

  lemma ReceivedIsKnown(dec: Decoder, rows: Rows, at: Instant)
    ensures ObjectsOf(dec, ReceivedBy(rows, at)) == LateEvidence.Known(ObjectsOf(dec, rows), at)
  {
  }

  /** Deleting every CRL and OCSP response that was received after the knowledge cutoff in the stored
      input leaves the verdict and the path as they are stored. */
  lemma StoredVerdictsIgnoreLateEvidence(env: Environment, digestOf: (RequestId, Call) -> Token, actions: seq<Action>,
          id: Token, setId: SetId, cutoff: Instant)
    requires NoCollisions(env, digestOf)
    requires var t := Run(env, digestOf, actions).tables;
             && id in t.adjudications && setId in t.sets && t.sets[setId].SealedSet?
             && t.sets[setId].digest == t.adjudications[id].digest
             && env.dec.texts.parseTime(t.adjudications[id].input.knowledgeCutoff) == Some(cutoff)
    ensures var t := Run(env, digestOf, actions).tables;
            var row := t.adjudications[id];
            && Usable(row.input, env.dec.texts)
            && var without := EngineRun(env, ReceivedBy(RowsIn(t, setId), cutoff), row.input, row.digest);
            && without.Computed? && without.result.report.verdict == row.result.report.verdict
            && without.result.report.path == row.result.report.path
            && without.result.report.trace == row.result.report.trace
  {
    var t := Run(env, digestOf, actions).tables;
    var row, rows := t.adjudications[id], RowsIn(t, setId);
    hide Run, NoCollisions, Usable, ObjectsOf, AdjudicationOf, EngineInput, RowsIn, ReceivedBy, ReportOn,
        LateEvidence.Known;
    StoredResultsAreTheEngines(env, digestOf, actions, id, setId);
    OneQuestion(row.input, env.dec.texts);
    assert EngineInput(row.input, env.dec.texts).question.cutoff == cutoff;
    ReceivedIsKnown(env.dec, rows, cutoff);
    LateEvidence.LateEvidenceChangesNothing(ObjectsOf(env.dec, rows), EngineInput(row.input, env.dec.texts), env.lib,
        env.signing);
  }

  /** Two stored responses with results about the same digest and input carry the same result,
      whichever requests, sets and instances they came from. */
  lemma SameQuestionSameResult(env: Environment, digestOf: (RequestId, Call) -> Token, actions: seq<Action>,
          a: RequestId, b: RequestId)
    requires var t := Run(env, digestOf, actions).tables;
             && a in t.requests && t.requests[a].body.Adjudicated? && b in t.requests && t.requests[b].body.Adjudicated?
             && t.requests[a].body.result.digest == t.requests[b].body.result.digest
             && t.requests[a].body.result.input == t.requests[b].body.result.input
    ensures var t := Run(env, digestOf, actions).tables;
            t.requests[a].body.result == t.requests[b].body.result
  {
    hide Run, ManifestOf, EngineRun, SetsOk, ClientOk, Usable, Normalized, SealedAs;
    RunOk(env, digestOf, actions);
    var t := Run(env, digestOf, actions).tables;
    ResultNamesItsQuestion(env, t, t.requests[a].body.result.id);
    ResultNamesItsQuestion(env, t, t.requests[b].body.result.id);
  }

  lemma ResultNamesItsQuestion(env: Environment, t: Tables, id: Token)
    requires AdjudicationsOk(env, t) && id in t.adjudications
    ensures var result := t.adjudications[id].result; result.id == env.adjudicationId(result.digest, result.input) == id
  {
    hide AdjudicationOf, ManifestOf, Normalized, SealedAs, EngineInput, Usable;
    assert RowFits(env, t, id, t.adjudications[id]);
  }

  // ----- Requests ----------------------------------------------------------------------------------

  /** The answer given by step `i` of a run. */
  ghost function AnswerAt(env: Environment, digestOf: (RequestId, Call) -> Token, actions: seq<Action>, i: nat)
    : Option<Answer>
    requires i < |actions|
  {
    Step(env, digestOf, Run(env, digestOf, actions[..i]), actions[i]).1
  }

  ghost predicate OnFile(t: Tables, rid: RequestId, status: nat, body: Body) {
    rid in t.requests && t.requests[rid].status == status && t.requests[rid].body == body
  }

  /** A successful answer is the response on file. */
  lemma AnswersAreOnFile(env: Environment, digestOf: (RequestId, Call) -> Token, s: State, a: Action)
    ensures var (after, answer) := Step(env, digestOf, s, a);
            answer.Some? && answer.value.reply.Replied? ==>
              OnFile(after.tables, answer.value.rid, answer.value.reply.status, answer.value.reply.body)
  {
    hide Normalized, Validated, CreateSet, AddObjects, SealObjects, EngineRun, RequestUsed, Usable;
  }

  /** All successful answers to a request id are one and the same. */
  lemma OneResponsePerRequest(env: Environment, digestOf: (RequestId, Call) -> Token, actions: seq<Action>, i: nat,
          j: nat)
    requires i < |actions| && j < |actions|
    requires var a, b := AnswerAt(env, digestOf, actions, i), AnswerAt(env, digestOf, actions, j);
             a.Some? && b.Some? && a.value.rid == b.value.rid && a.value.reply.Replied? && b.value.reply.Replied?
    ensures AnswerAt(env, digestOf, actions, i) == AnswerAt(env, digestOf, actions, j)
  {
    hide Step;
    AnswerStays(env, digestOf, actions, i);
    AnswerStays(env, digestOf, actions, j);
  }

  lemma AnswerStays(env: Environment, digestOf: (RequestId, Call) -> Token, actions: seq<Action>, i: nat)
    requires i < |actions|
    requires AnswerAt(env, digestOf, actions, i).Some? && AnswerAt(env, digestOf, actions, i).value.reply.Replied?
    ensures var a := AnswerAt(env, digestOf, actions, i).value;
            OnFile(Run(env, digestOf, actions).tables, a.rid, a.reply.status, a.reply.body)
  {
    hide Step;
    AnswersAreOnFile(env, digestOf, Run(env, digestOf, actions[..i]), actions[i]);
    assert actions[..i + 1][..i] == actions[..i] && actions[..i + 1][i] == actions[i];
    RunKeeps(env, digestOf, actions, i + 1);
  }

  /** The request id and content under which a step looks for a response on file, if it does: each
      transaction, and of an adjudication both the first phase and the last. */
  ghost function Presented(env: Environment, s: State, a: Action): Option<(RequestId, Call)> {
    match a
    case Creating(rid, title, _) => Some((rid, CreateCall(title)))
    case Adding(rid, id, items) => Some((rid, AddRequest(env.dec.texts, id, items)))
    case Sealing(rid, id) => Some((rid, SealCall(id)))
    case Beginning(c, rid, id, raw) =>
      if ClientAt(s, c) == Idle && Validated(raw, env.dec.texts).Normal?
      then Some((rid, AdjudicateCall(id, Validated(raw, env.dec.texts).input))) else None
    case Computing(_) => None
    case Finishing(c) =>
      if ClientAt(s, c).Ready?
      then var pin := ClientAt(s, c).pin; Some((pin.rid, AdjudicateCall(pin.setId, pin.input))) else None
    case Crashing(_) => None
  }

  /** A request id on file answers a request with the stored response if the digests agree and
      with a conflict if they do not, and nothing is done either way. */
  lemma RepeatsReplay(env: Environment, digestOf: (RequestId, Call) -> Token, s: State, a: Action)
    requires AllHonest(digestOf, s)
    requires Presented(env, s, a).Some? && Presented(env, s, a).value.0 in s.tables.requests
    ensures var (rid, call) := Presented(env, s, a).value;
            var row := s.tables.requests[rid];
            && Step(env, digestOf, s, a).1 ==
                 Some(Answer(rid, if row.hash == digestOf(rid, call) then Replied(row.status, row.body)
                     else Error(IdempotencyConflict)))
            && Step(env, digestOf, s, a).0.tables == s.tables
  {
    hide Normalized, Validated, CreateSet, AddObjects, SealObjects, EngineRun, RequestUsed, Usable;
  }

  /** A request that succeeds files its own digest. */
  lemma SuccessFilesTheDigest(env: Environment, digestOf: (RequestId, Call) -> Token, s: State, a: Action)
    requires AllHonest(digestOf, s) && Presented(env, s, a).Some?
    requires Step(env, digestOf, s, a).1.Some? && Step(env, digestOf, s, a).1.value.reply.Replied?
    ensures var (rid, call) := Presented(env, s, a).value;
            var after := Step(env, digestOf, s, a).0.tables;
            Step(env, digestOf, s, a).1.value.rid == rid && rid in after.requests
                && after.requests[rid].hash == digestOf(rid, call)
  {
    hide Normalized, Validated, CreateSet, AddObjects, SealObjects, EngineRun, RequestUsed, Usable;
  }

  /** Once a request has succeeded, the same id with the same content gets the same response, and
      with any other content a conflict, whichever transaction answered the one or the other: of an
      adjudication, phase 1 or phase 3, also of one that was in flight beside it. The same
      content is the same batch in any order, with times of receipt in any spelling but all
      else as submitted, or an adjudication input with the same normal form. */
  lemma RepeatedRequests(env: Environment, digestOf: (RequestId, Call) -> Token, actions: seq<Action>, i: nat, j: nat)
    requires NoCollisions(env, digestOf) && i < j < |actions|
    requires var before, later := Run(env, digestOf, actions[..i]), Run(env, digestOf, actions[..j]);
             && Presented(env, before, actions[i]).Some? && Presented(env, later, actions[j]).Some?
             && Presented(env, before, actions[i]).value.0 == Presented(env, later, actions[j]).value.0
    requires AnswerAt(env, digestOf, actions, i).Some? && AnswerAt(env, digestOf, actions, i).value.reply.Replied?
    ensures var before, later := Run(env, digestOf, actions[..i]), Run(env, digestOf, actions[..j]);
            AnswerAt(env, digestOf, actions, j) ==
              if Presented(env, later, actions[j]) == Presented(env, before, actions[i])
              then AnswerAt(env, digestOf, actions, i)
              else Some(Answer(Presented(env, later, actions[j]).value.0, Error(IdempotencyConflict)))
  {
    hide Step, Presented, AllHonest;
    var before, later := Run(env, digestOf, actions[..i]), Run(env, digestOf, actions[..j]);
    PinsAreHonest(env, digestOf, actions[..i]);
    PinsAreHonest(env, digestOf, actions[..j]);
    SuccessFilesTheDigest(env, digestOf, before, actions[i]);
    AnswersAreOnFile(env, digestOf, before, actions[i]);
    assert actions[..i + 1][..i] == actions[..i] && actions[..i + 1][i] == actions[i];
    assert actions[..j][..i + 1] == actions[..i + 1];
    RunKeeps(env, digestOf, actions[..j], i + 1);
    RepeatsReplay(env, digestOf, later, actions[j]);
  }

  /** For adjudications: what phase 3 answers with success was asked by an earlier step of its
      client, and asking it again later gets the same response exactly when set and normal form of
      the input are the same. */
  lemma RepeatedAdjudications(env: Environment, digestOf: (RequestId, Call) -> Token, actions: seq<Action>, i: nat,
          j: nat)
    requires NoCollisions(env, digestOf) && i < j < |actions|
    requires actions[i].Finishing? && ClientAt(Run(env, digestOf, actions[..i]), actions[i].client).Ready?
    requires AnswerAt(env, digestOf, actions, i).Some? && AnswerAt(env, digestOf, actions, i).value.reply.Replied?
    requires actions[j].Beginning? && ClientAt(Run(env, digestOf, actions[..j]), actions[j].client) == Idle
    requires actions[j].rid == ClientAt(Run(env, digestOf, actions[..i]), actions[i].client).pin.rid
    requires Validated(actions[j].raw, env.dec.texts).Normal?
    ensures var pin, again := ClientAt(Run(env, digestOf, actions[..i]), actions[i].client).pin, actions[j];
            && (exists k :: 0 <= k < i && AsksAs(env, actions[k], actions[i].client, pin))
            && AnswerAt(env, digestOf, actions, j) ==
                 if again.setId == pin.setId && Validated(again.raw, env.dec.texts).input == pin.input
                 then AnswerAt(env, digestOf, actions, i)
                 else Some(Answer(pin.rid, Error(IdempotencyConflict)))
  {
    hide AnswerAt, Run, AsksAs, Validated;
    var c := actions[i].client;
    var pin := ClientAt(Run(env, digestOf, actions[..i]), c).pin;
    RepeatedRequests(env, digestOf, actions, i, j);
    PinsComeFromRequests(env, digestOf, actions[..i], c);
    var k :| 0 <= k < i && AsksAs(env, actions[..i][k], c, pin);
    assert actions[k] == actions[..i][k];
  }

  /** For batches: a batch that was stored and is sent again gets the same response exactly when
      it is for the same set and its items, as submitted but for the spelling of times, are the
      same in some order. Two spellings of the same DER bytes are a conflict. */
  lemma RepeatedBatches(env: Environment, digestOf: (RequestId, Call) -> Token, actions: seq<Action>, i: nat, j: nat)
    requires NoCollisions(env, digestOf) && i < j < |actions|
    requires actions[i].Adding? && actions[j].Adding? && actions[i].rid == actions[j].rid
    requires AnswerAt(env, digestOf, actions, i).Some? && AnswerAt(env, digestOf, actions, i).value.reply.Replied?
    ensures var first, again := actions[i], actions[j];
            AnswerAt(env, digestOf, actions, j) ==
              if again.setId == first.setId
                 && multiset(CanonItems(env.dec.texts, again.items)) == multiset(CanonItems(env.dec.texts, first.items))
              then AnswerAt(env, digestOf, actions, i)
              else Some(Answer(first.rid, Error(IdempotencyConflict)))
  {
    hide AnswerAt, Run;
    RepeatedRequests(env, digestOf, actions, i, j);
  }

  // ----- The fallback of phase 3 ------------------------------------------------------------------

  /** The request id of a stored adjudication is always on file, so phase 3 never meets a
      violated uniqueness constraint. */
  lemma RaceIsUnreachable(env: Environment, digestOf: (RequestId, Call) -> Token, actions: seq<Action>, a: Action)
    ensures var s := Run(env, digestOf, actions);
            && (forall id :: id in s.tables.adjudications ==> s.tables.adjudications[id].request in s.tables.requests)
            && (var answer := Step(env, digestOf, s, a).1;
                answer.Some? ==> answer.value.reply != Error(PersistenceRace))
  {
    hide Run, Normalized, Validated, CreateSet, AddObjects, SealObjects, EngineRun, SealedAs, MadeFrom, SetsOk,
        ResponsesOk, ClientOk, Usable;
    RunOk(env, digestOf, actions);
    var t := Run(env, digestOf, actions).tables;
    forall id | id in t.adjudications ensures t.adjudications[id].request in t.requests {
      assert RowFits(env, t, id, t.adjudications[id]);
    }
    NoRace(env, digestOf, Run(env, digestOf, actions), a);
  }

  lemma NoRace(env: Environment, digestOf: (RequestId, Call) -> Token, s: State, a: Action)
    requires forall id :: id in s.tables.adjudications ==> s.tables.adjudications[id].request in s.tables.requests
    ensures var answer := Step(env, digestOf, s, a).1; answer.Some? ==> answer.value.reply != Error(PersistenceRace)
  {
    hide Normalized, Validated, Upload, ManifestOf, EngineRun, Usable;
  }
}
