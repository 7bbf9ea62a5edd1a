/** The result of an adjudication (app/adjudicate.py) as a function of the objects and the
    input: the artifact signature, the verdict, the path or the rejection proof, and the books. */
module Reports {
  import opened Basics
  import opened Certificates
  import opened RevocationLedger
  import opened SearchSpec
  import opened Worlds
  import opened Shrinking
  import Policies

  /** `artifact` is the artifact's digest in hex. */
  datatype Input = Input(question: Question, algorithm: string, signature: Bytes, artifact: string)

  /** Whether an algorithm suits a key's type, and whether a signature over a digest verifies. */
  datatype Signing = Signing(suits: (string, Key) -> bool, verifies: (Key, string, Bytes, string) -> bool)

  datatype ArtifactCheck = ArtifactGood | KeyOutOfProfile | WrongKeyType | ArtifactBad

  datatype Verdict = Valid | Invalid | Unresolved

  datatype Role = LeafRole | IntermediateRole | AnchorRole

  datatype TraceEntry = TraceEntry(cert: Fp, role: Role, signer: Option<Fp>, revocation: Option<Status>)

  datatype Report = Report(
    verdict: Verdict, artifact: ArtifactCheck,
    path: Option<Path>, trace: seq<TraceEntry>, validPolicies: Option<set<Policies.Policy>>,
    proof: Option<Proof>,
    revocation: map<Fp, Outcome>, accounting: map<Fp, Disposition>)

  /** The errors the engine raises, or its result with the objects it settled on. */
  datatype Adjudication = LeafNotFound | OutOfBudget | Decided(report: Report, active: set<Fp>)

  /** `_check_artifact_signature`. */
  function CheckArtifact(leaf: Cert, input: Input, signing: Signing): ArtifactCheck {
    if !leaf.key.inProfile then KeyOutOfProfile
    else if !signing.suits(input.algorithm, leaf.key) then WrongKeyType
    else if !signing.verifies(leaf.key, input.algorithm, input.signature, input.artifact) then ArtifactBad
    else ArtifactGood
  }

  /** An artifact signature is good exactly when the leaf's key is in profile, of the right type
      for the algorithm, and verifies it over the artifact's digest; otherwise the first of these
      that fails is the reason. */
  lemma ArtifactMeans(leaf: Cert, input: Input, signing: Signing)
    ensures var suits := signing.suits(input.algorithm, leaf.key);
            var verifies := signing.verifies(leaf.key, input.algorithm, input.signature, input.artifact);
            match CheckArtifact(leaf, input, signing)
            case KeyOutOfProfile => !leaf.key.inProfile
            case WrongKeyType => leaf.key.inProfile && !suits
            case ArtifactBad => leaf.key.inProfile && suits && !verifies
            case ArtifactGood => leaf.key.inProfile && suits && verifies
  {
  }

  /** Some rejected branch failed for something outside the supported profile. */
  ghost predicate BranchUnsupported(proof: Option<Proof>) {
    proof.Some? && exists b :: b in proof.value.branches && b.failure.code == Unsupported
  }

  ghost function VerdictOn(artifact: ArtifactCheck, leaf: Cert, path: Option<Path>, proof: Option<Proof>): Verdict {
    if artifact == ArtifactGood && path.Some? then Valid
    else if artifact == KeyOutOfProfile || leaf.unsupported || BranchUnsupported(proof) then Unresolved
    else Invalid
  }

  function TraceAt(path: Path, outcomes: map<Fp, Outcome>, i: nat): TraceEntry
    requires i < |path|
  {
    var last := i == |path| - 1;
    TraceEntry(path[i],
               if i == 0 then LeafRole else if last then AnchorRole else IntermediateRole,
               if last then None else Some(path[i + 1]),
               if last || path[i] !in outcomes then None else Some(outcomes[path[i]].conclusion.status))
  }

  /** `trace_path`. */
  function TraceOf(path: Path, outcomes: map<Fp, Outcome>): seq<TraceEntry> {
    seq(|path|, i requires 0 <= i < |path| => TraceAt(path, outcomes, i))
  }

  ghost function PoliciesOn(certs: map<Fp, Cert>, path: Option<Path>, q: Question): Option<set<Policies.Policy>> {
    if path == None || !AllIn(certs, path.value) then None
    else
      match Policies.PolicyVerdict(PoliciesAlong(CertsAlong(certs, path.value)), q.initialPolicySet)
      case Pass(valid) => Some(valid)
      case Fail(_, _) => None
  }

  /** The result on the objects the loop settled on. */
  ghost function ReportOn(objects: Objects, input: Input, lib: Library, signing: Signing): Report
    requires input.question.leaf in CertsIn(objects)
  {
    var q, certs := input.question, CertsIn(objects);
    var s, books := SearchIn(objects, q, lib), LedgerIn(objects, q, lib);
    var artifact := CheckArtifact(certs[q.leaf], input, signing);
    Report(VerdictOn(artifact, certs[q.leaf], s.path, s.proof), artifact,
           s.path, if s.path.Some? then TraceOf(s.path.value, books.outcomes) else [],
           PoliciesOn(certs, s.path, q), s.proof, books.outcomes, books.accounting)
  }

  ghost function AdjudicationOf(objects: Objects, input: Input, lib: Library, signing: Signing): (result: Adjudication)
    ensures result.Decided? ==> result.active <= objects.Keys
  {
    if input.question.leaf !in CertsIn(objects) then LeafNotFound
    else
      match Settle(objects, input.question, lib)
      case None => OutOfBudget
      case Some(final) => Decided(ReportOn(final, input, lib, signing), final.Keys)
  }
}
