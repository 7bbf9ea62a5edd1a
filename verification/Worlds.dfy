/** The objects of an evidence set, and the certificate graph they make for one question. */
module Worlds {
  import opened Basics
  import opened Certificates
  import opened Revocation
  import opened RevocationAccounting
  import opened SearchSpec
  import NameConstraints
  import Policies

  /** A stored object. Certificates need no time of receipt; revocation evidence does. */
  datatype Item =
    | CertItem(cert: Cert, certAt: Option<Instant>)
    | CrlItem(crl: Crl, crlAt: Instant)
    | OcspItem(ocsp: Ocsp, ocspAt: Instant)

  type Objects = map<Fp, Item>

  /** The part of an adjudication input that the search depends on. */
  datatype Question = Question(
    leaf: Fp, anchors: set<Fp>, signedAt: Instant, cutoff: Instant, initialPolicySet: set<Policies.Policy>)

  /** Library functions the rules rely on: OCSP identifier hashes and the host part of a URI. */
  datatype Library = Library(hashes: IdHashes, hostOf: NameConstraints.HostOf) {
    function Matcher(): NameConstraints.Matcher {
      NameConstraints.MatcherFor(hostOf)
    }
  }

  /** The certificates; each goes by the fingerprint it is filed under. */
  function CertsIn(objects: Objects): (certs: map<Fp, Cert>)
    ensures OwnNames(certs)
  {
    map fp | fp in objects && objects[fp].CertItem? :: objects[fp].cert.(fp := fp)
  }

  predicate OwnNames(certs: map<Fp, Cert>) {
    forall fp :: fp in certs ==> certs[fp].fp == fp
  }

  function EvidenceIn(objects: Objects, q: Question, lib: Library): Evidence {
    Evidence(map fp | fp in objects && objects[fp].CrlItem? :: Received(objects[fp].crl, objects[fp].crlAt),
             map fp | fp in objects && objects[fp].OcspItem? :: Received(objects[fp].ocsp, objects[fp].ocspAt),
             q.signedAt, q.cutoff, lib.hashes)
  }

  /** What the objects hold, and for which question: certificates under the fingerprint they are filed
      under, and evidence with its time of receipt. */
  lemma ObjectsHold(objects: Objects, q: Question, lib: Library)
    ensures forall fp :: fp in CertsIn(objects) <==> fp in objects && objects[fp].CertItem?
    ensures forall fp :: fp in CertsIn(objects) ==> CertsIn(objects)[fp] == objects[fp].cert.(fp := fp)
    ensures var ev := EvidenceIn(objects, q, lib);
            && (forall fp, crl, at :: (fp in ev.crls && ev.crls[fp] == Received(crl, at)) <==>
                  (fp in objects && objects[fp] == CrlItem(crl, at)))
            && (forall fp, ocsp, at :: (fp in ev.ocsps && ev.ocsps[fp] == Received(ocsp, at)) <==>
                  (fp in objects && objects[fp] == OcspItem(ocsp, at)))
            && ev.signedAt == q.signedAt && ev.cutoff == q.cutoff && ev.hashes == lib.hashes
  {
  }

  /** Issuer candidates of one certificate that share a key agree on their subject key identifier. */
  ghost predicate Coherent(certs: map<Fp, Cert>) {
    SkiCoherent(certs.Values)
  }

  // ----- The rules on a whole path ---------------------------------------------------

  function NamesAlong(path: seq<Cert>): seq<NameConstraints.NameCert> {
    seq(|path|, i requires 0 <= i < |path| => path[i].names)
  }

  function PoliciesAlong(path: seq<Cert>): seq<Policies.PolicyCert> {
    seq(|path|, i requires 0 <= i < |path| => path[i].policy)
  }

  /** `_terminal_checks`: the anchor itself, then name constraints, then policies. */
  ghost function TerminalFailure(path: seq<Cert>, q: Question, lib: Library): Option<Failure>
    requires |path| > 0
  {
    var f := AnchorFailure(path[|path| - 1], q.signedAt);
    var names := NameConstraints.NameVerdict(lib.Matcher(), NamesAlong(path));
    var policies := Policies.PolicyVerdict(PoliciesAlong(path), q.initialPolicySet);
    if f.Some? then f
    else if names.Breach? then
      NameConstraints.NameVerdictMeans(lib.Matcher(), NamesAlong(path));
      Some(Failure(path[names.position].fp, NameConstraintBroken(names.fault)))
    else if policies.Fail? then
      Policies.VerdictMeans(PoliciesAlong(path), q.initialPolicySet);
      Some(Failure(path[policies.position].fp, PolicyBroken(policies.fault)))
    else None
  }

  /** A path passes the rules on whole paths exactly when its anchor is in profile and
      valid, every name is in order and the policies pass. */
  lemma TerminalMeans(path: seq<Cert>, q: Question, lib: Library)
    requires |path| > 0
    ensures TerminalFailure(path, q, lib) == None <==>
              && AnchorFailure(path[|path| - 1], q.signedAt) == None
              && NameConstraints.PathOk(lib.Matcher(), NamesAlong(path))
              && Policies.PathPasses(PoliciesAlong(path), q.initialPolicySet)
  {
    NameConstraints.NameVerdictMeans(lib.Matcher(), NamesAlong(path));
    Policies.VerdictMeans(PoliciesAlong(path), q.initialPolicySet);
  }

  // ----- The graph ---------------------------------------------------------------------

  function CertsAlong(certs: map<Fp, Cert>, path: Path): seq<Cert>
    requires forall x :: x in path ==> x in certs
  {
    seq(|path|, i requires 0 <= i < |path| => certs[path[i]])
  }

  predicate AllIn(certs: map<Fp, Cert>, path: Path) {
    |path| > 0 && forall x :: x in path ==> x in certs
  }

  function IssuersIn(certs: map<Fp, Cert>, c: Fp): set<Fp> {
    if c in certs then set p | p in certs && IssuerMatches(certs[c], certs[p]) else {}
  }

  /** CA certificates on the path that are not self-issued. */
  function BelowCount(certs: map<Fp, Cert>, path: Path, n: nat): nat
    requires n <= |path| && forall x :: x in path ==> x in certs
  {
    if n == 0 then 0
    else
      var c := certs[path[n - 1]];
      BelowCount(certs, path, n - 1) + if c.isCa && !c.SelfIssued() then 1 else 0
  }

  /** The checks of `_edge_checks` made before revocation is asked about. */
  function PlainFailure(certs: map<Fp, Cert>, at: Instant, path: Path, p: Fp): Option<Failure>
    requires AllIn(certs, path) && p in certs
  {
    var parent := certs[p];
    var f := StaticFailure(certs[Last(path)], parent, at);
    if f.Some? then f
    else if parent.pathLen.Some? && BelowCount(certs, path, |path|) > parent.pathLen.value then
      Some(Failure(p, PathLenExceeded))
    else None
  }

  ghost function StatusIn(certs: map<Fp, Cert>, ev: Evidence, c: Fp, p: Fp): Status {
    if c in certs && p in certs then ConclusionOf(ev, certs[c], AuthorityOf(certs[p])).status else UnknownStatus
  }

  ghost function GraphOf(certs: map<Fp, Cert>, ev: Evidence, q: Question, lib: Library): Graph {
    Graph(certs.Keys, q.anchors,
          (c: Fp) => IssuersIn(certs, c),
          (c: Fp) => if c in certs then LeafFailure(certs[c], q.signedAt) else None,
          (path: Path, p: Fp) =>
            if AllIn(certs, path) && p in certs then PlainFailure(certs, q.signedAt, path, p) else None,
          (c: Fp, p: Fp) => StatusIn(certs, ev, c, p),
          (p: Fp) => if p in certs then certs[p].key else Key(0, false),
          (path: Path) => if AllIn(certs, path) then TerminalFailure(CertsAlong(certs, path), q, lib) else None)
  }
}
