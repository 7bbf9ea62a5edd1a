/** Parsed certificates and the checks that look at one or two of them. */
module Certificates {
  import opened Basics
  import NameConstraints
  import Policies

  /** DER bytes or hex strings that are only ever compared for equality. */
  type Token = nat
  type Instant = int

  /** `inProfile` is false when the key has no descriptor in the supported profile. */
  datatype Key = Key(id: Token, inProfile: bool)

  datatype Usage = DigitalSignature | KeyCertSign | OtherUsage(bit: nat)
  datatype Purpose = CodeSigning | OcspSigning | OtherPurpose(oid: nat)

  /** `verifiesUnder` holds the keys under which the certificate's signature verifies. */
  datatype Cert = Cert(
    fp: Fp, subject: Token, issuer: Token, serial: nat,
    ski: Option<Token>, aki: Option<Token>,
    key: Key, sigAlgKnown: bool, verifiesUnder: set<Key>,
    notBefore: Instant, notAfter: Instant,
    isCa: bool, pathLen: Option<nat>,
    keyUsage: Option<set<Usage>>, eku: Option<set<Purpose>>,
    unsupported: bool,
    names: NameConstraints.NameCert, policy: Policies.PolicyCert)
  {
    predicate SelfIssued() { subject == issuer }
  }

  datatype Status = GoodStatus | RevokedStatus | StaleStatus | UnknownStatus | MalformedStatus

  datatype Code =
    | Unsupported | NotYetValid | Expired
    | NoDigitalSignature | MissingCodeSigning
    | SignatureInvalid | NotACa | NoKeyCertSign | PathLenExceeded
    | RevocationNotGood(status: Status)
    | NameConstraintBroken(name: NameConstraints.NameFault)
    | PolicyBroken(policy: Policies.PolicyFault)
    | NoIssuer | NoTrustedAnchor

  datatype Failure = Failure(cert: Fp, code: Code)

  /** `_leaf_prechecks`. */
  function LeafFailure(leaf: Cert, at: Instant): Option<Failure> {
    if leaf.unsupported then Some(Failure(leaf.fp, Unsupported))
    else if at < leaf.notBefore then Some(Failure(leaf.fp, NotYetValid))
    else if at > leaf.notAfter then Some(Failure(leaf.fp, Expired))
    else if leaf.keyUsage.Some? && DigitalSignature !in leaf.keyUsage.value then
      Some(Failure(leaf.fp, NoDigitalSignature))
    else if leaf.eku == None || CodeSigning !in leaf.eku.value then Some(Failure(leaf.fp, MissingCodeSigning))
    else None
  }

  function EdgeSignatureOk(c: Cert, parent: Cert): bool {
    c.sigAlgKnown && parent.key.inProfile && parent.key in c.verifiesUnder
  }

  /** The part of `_edge_checks` that looks only at the two certificates. */
  function StaticFailure(c: Cert, parent: Cert, at: Instant): Option<Failure> {
    if parent.unsupported then Some(Failure(parent.fp, Unsupported))
    else if !EdgeSignatureOk(c, parent) then Some(Failure(c.fp, SignatureInvalid))
    else if at < parent.notBefore then Some(Failure(parent.fp, NotYetValid))
    else if at > parent.notAfter then Some(Failure(parent.fp, Expired))
    else if !parent.isCa then Some(Failure(parent.fp, NotACa))
    else if parent.keyUsage.Some? && KeyCertSign !in parent.keyUsage.value then
      Some(Failure(parent.fp, NoKeyCertSign))
    else None
  }

  /** The anchor's own part of `_terminal_checks`. */
  function AnchorFailure(anchor: Cert, at: Instant): Option<Failure> {
    if anchor.unsupported then Some(Failure(anchor.fp, Unsupported))
    else if at < anchor.notBefore then Some(Failure(anchor.fp, NotYetValid))
    else if at > anchor.notAfter then Some(Failure(anchor.fp, Expired))
    else None
  }

  /** Issuer candidates match by exact name and, if the child pins a key, by AKI to SKI. */
  predicate IssuerMatches(child: Cert, parent: Cert) {
    parent.subject == child.issuer && (child.aki.Some? ==> parent.ski == child.aki)
  }
}
