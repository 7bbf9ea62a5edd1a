/** Revocation evidence and the conclusion drawn from it (app/revocation.py), as functions
    of the evidence: which views there are, which one is selected, what it says. */
module Revocation {
  import opened Basics
  import opened Certificates

  datatype Reason = RemoveFromCrl | OtherReason(code: nat)
  datatype Entry = Entry(at: Instant, reason: Option<Reason>)
  type Entries = map<nat, Entry>

  datatype Crl = Crl(
    issuer: Token, aki: Option<Token>, idp: Option<Token>,
    number: Option<int>, baseNumber: Option<int>,
    thisUpdate: Instant, nextUpdate: Option<Instant>,
    entries: Entries,
    sigAlgKnown: bool, verifiesUnder: set<Key>, unsupported: bool)

  datatype HashAlg = Sha1 | Sha256 | OtherHash(name: nat)
  datatype OcspStatus = OcspGood | OcspRevoked | OcspUnknown
  datatype ResponderId = ByKey(hash: Token) | ByName(name: Token) | Unnamed

  datatype Single = Single(
    serial: nat, alg: HashAlg, nameHash: Token, keyHash: Token,
    status: OcspStatus, thisUpdate: Instant, nextUpdate: Option<Instant>,
    revocationTime: Option<Instant>, reason: Option<Reason>)

  /** `embedded` lists the responder certificates; `None` for one that does not parse. */
  datatype Ocsp = Ocsp(
    responses: seq<Single>, responderId: ResponderId, embedded: seq<Option<Cert>>,
    producedAt: Instant, sigAlgKnown: bool, verifiesUnder: set<Key>, unsupported: bool)

  datatype Received<T> = Received(item: T, at: Instant)

  /** The hash functions of OCSP certificate identifiers. */
  datatype IdHashes = IdHashes(name: (HashAlg, Token) -> Token, key: (HashAlg, Key) -> Token)

  datatype Evidence = Evidence(
    crls: map<Fp, Received<Crl>>, ocsps: map<Fp, Received<Ocsp>>,
    signedAt: Instant, cutoff: Instant, hashes: IdHashes)

  /** All that the evaluation reads of an issuer certificate. */
  datatype Authority = Authority(subject: Token, key: Key, ski: Option<Token>)

  function AuthorityOf(issuer: Cert): Authority {
    Authority(issuer.subject, issuer.key, issuer.ski)
  }

  // ----- CRL evidence ------------------------------------------------------

  datatype Fate =
    | Late | OutOfProfile | WrongKey | BadSignature | NoBase
    | Unauthorized | RevokedWithoutTime
    | CompleteCrl | DeltaCrl
    | Response(single: Single, responder: Responder)

  datatype Responder = Direct | Delegated(fp: Fp)

  predicate IsDefective(f: Fate) {
    f in {OutOfProfile, BadSignature, NoBase, Unauthorized, RevokedWithoutTime}
  }

  function CrlFate(ev: Evidence, auth: Authority, fp: Fp): Fate
    requires fp in ev.crls
  {
    var Received(crl, at) := ev.crls[fp];
    if at > ev.cutoff then Late
    else if crl.unsupported then OutOfProfile
    else if crl.aki.Some? && auth.ski.Some? && crl.aki != auth.ski then WrongKey
    else if !(crl.sigAlgKnown && auth.key.inProfile && auth.key in crl.verifiesUnder) then BadSignature
    else if crl.baseNumber.Some? then DeltaCrl
    else CompleteCrl
  }

  /** What the parser guarantees: a delta CRL without a number is out of profile. */
  predicate AsParsed(crl: Crl) {
    crl.baseNumber.Some? && crl.number == None ==> crl.unsupported
  }

  predicate CompatibleCrls(base: Crl, delta: Crl) {
    && base.issuer == delta.issuer && base.aki == delta.aki && base.idp == delta.idp
    && base.number.Some? && delta.baseNumber == base.number
    && (delta.number.Some? ==> delta.number.value > base.number.value)
  }

  predicate IsCrlFor(ev: Evidence, cert: Cert, fp: Fp) {
    fp in ev.crls && ev.crls[fp].item.issuer == cert.issuer
  }

  predicate IsComplete(ev: Evidence, cert: Cert, auth: Authority, fp: Fp) {
    IsCrlFor(ev, cert, fp) && CrlFate(ev, auth, fp) == CompleteCrl
  }

  predicate IsDelta(ev: Evidence, cert: Cert, auth: Authority, fp: Fp) {
    IsCrlFor(ev, cert, fp) && CrlFate(ev, auth, fp) == DeltaCrl
  }

  predicate IsPair(ev: Evidence, cert: Cert, auth: Authority, base: Fp, delta: Fp) {
    IsComplete(ev, cert, auth, base) && IsDelta(ev, cert, auth, delta)
    && CompatibleCrls(ev.crls[base].item, ev.crls[delta].item)
  }

  /** A delta over a base: a serial the delta mentions is as the delta says. */
  function Merged(base: Entries, delta: Entries): (m: Entries)
    ensures forall s :: s in delta ==>
              (s in m <==> delta[s].reason != Some(RemoveFromCrl)) && (s in m ==> m[s] == delta[s])
    ensures forall s :: s !in delta ==> (s in m <==> s in base) && (s in m ==> m[s] == base[s])
  {
    map s | s in base.Keys + delta.Keys && (s in delta ==> delta[s].reason != Some(RemoveFromCrl)) ::
      if s in delta then delta[s] else base[s]
  }

  // ----- OCSP evidence -----------------------------------------------------

  predicate SingleMatches(ev: Evidence, cert: Cert, auth: Authority, s: Single) {
    s.alg in {Sha1, Sha256} && s.serial == cert.serial
    && s.nameHash == ev.hashes.name(s.alg, auth.subject) && s.keyHash == ev.hashes.key(s.alg, auth.key)
  }

  function FirstMatch(ev: Evidence, cert: Cert, auth: Authority, responses: seq<Single>): Option<Single> {
    if responses == [] then None
    else if SingleMatches(ev, cert, auth, responses[0]) then Some(responses[0])
    else FirstMatch(ev, cert, auth, responses[1..])
  }

  predicate IsOcspFor(ev: Evidence, cert: Cert, auth: Authority, fp: Fp) {
    fp in ev.ocsps && FirstMatch(ev, cert, auth, ev.ocsps[fp].item.responses).Some?
  }

  predicate ResponderMatches(ev: Evidence, ocsp: Ocsp, subject: Token, key: Key) {
    match ocsp.responderId
    case ByKey(h) => ev.hashes.key(Sha1, key) == h
    case ByName(n) => subject == n
    case Unnamed => false
  }

  predicate DelegateOk(ev: Evidence, ocsp: Ocsp, auth: Authority, r: Cert) {
    && r.issuer == auth.subject && !r.unsupported
    && r.eku.Some? && OcspSigning in r.eku.value
    && r.notBefore <= ocsp.producedAt <= r.notAfter
    && ResponderMatches(ev, ocsp, r.subject, r.key)
    && r.sigAlgKnown && auth.key in r.verifiesUnder
    && r.key in ocsp.verifiesUnder
  }

  function FirstDelegate(ev: Evidence, ocsp: Ocsp, auth: Authority, rs: seq<Option<Cert>>): Option<Responder> {
    if rs == [] then None
    else if rs[0].Some? && DelegateOk(ev, ocsp, auth, rs[0].value) then Some(Delegated(rs[0].value.fp))
    else FirstDelegate(ev, ocsp, auth, rs[1..])
  }

  /** `_verify_ocsp_authorization`: the issuer itself, else the first embedded delegate. */
  function Authorized(ev: Evidence, ocsp: Ocsp, auth: Authority): Option<Responder> {
    if !ocsp.sigAlgKnown then None
    else if auth.key.inProfile && ResponderMatches(ev, ocsp, auth.subject, auth.key) && auth.key in ocsp.verifiesUnder
    then Some(Direct)
    else FirstDelegate(ev, ocsp, auth, ocsp.embedded)
  }

  function OcspFate(ev: Evidence, cert: Cert, auth: Authority, fp: Fp): Fate
    requires IsOcspFor(ev, cert, auth, fp)
  {
    var Received(ocsp, at) := ev.ocsps[fp];
    var single := FirstMatch(ev, cert, auth, ocsp.responses).value;
    var responder := Authorized(ev, ocsp, auth);
    if at > ev.cutoff then Late
    else if ocsp.unsupported then OutOfProfile
    else if responder == None then Unauthorized
    else if single.status == OcspRevoked && single.revocationTime == None then RevokedWithoutTime
    else Response(single, responder.value)
  }

  predicate IsResponse(ev: Evidence, cert: Cert, auth: Authority, fp: Fp) {
    IsOcspFor(ev, cert, auth, fp) && OcspFate(ev, cert, auth, fp).Response?
  }

  // ----- Views ---------------------------------------------------------------

  datatype ViewId = CrlId(crl: Fp) | PairId(base: Fp, delta: Fp) | OcspId(ocsp: Fp)

  datatype Body =
    | CrlBody(entries: Entries)
    | OcspBody(single: Single, responder: Responder)

  datatype View = View(id: ViewId, asOf: Instant, nextUpdate: Option<Instant>, body: Body, evidence: seq<Fp>)

  /** The candidate views the evidence supports. */
  predicate IsView(ev: Evidence, cert: Cert, auth: Authority, id: ViewId) {
    match id
    case CrlId(fp) => IsComplete(ev, cert, auth, fp)
    case PairId(base, delta) => IsPair(ev, cert, auth, base, delta)
    case OcspId(fp) => IsResponse(ev, cert, auth, fp)
  }

  function ViewOf(ev: Evidence, cert: Cert, auth: Authority, id: ViewId): View
    requires IsView(ev, cert, auth, id)
  {
    match id
    case CrlId(fp) =>
      var crl := ev.crls[fp].item;
      View(id, crl.thisUpdate, crl.nextUpdate, CrlBody(crl.entries), [fp])
    case PairId(base, delta) =>
      var b, d := ev.crls[base].item, ev.crls[delta].item;
      View(id, d.thisUpdate, d.nextUpdate, CrlBody(Merged(b.entries, d.entries)), [base, delta])
    case OcspId(fp) =>
      var fate := OcspFate(ev, cert, auth, fp);
      View(id, fate.single.thisUpdate, fate.single.nextUpdate, OcspBody(fate.single, fate.responder), [fp])
  }

  /** String order on `crl:<fp>`, `crl:<base>+<delta>` and `ocsp:<fp>`, for
      fingerprints of equal length. */
  predicate IdLess(a: ViewId, b: ViewId) {
    match (a, b)
    case (OcspId(x), OcspId(y)) => x < y
    case (OcspId(_), _) => false
    case (_, OcspId(_)) => true
    case (CrlId(x), CrlId(y)) => x < y
    case (CrlId(x), PairId(y, _)) => x <= y
    case (PairId(x, _), CrlId(y)) => x < y
    case (PairId(x, d), PairId(y, e)) => x < y || (x == y && d < e)
  }

  /** The sort key `(-as_of, view_id)`. */
  predicate Before(a: View, b: View) {
    a.asOf > b.asOf || (a.asOf == b.asOf && IdLess(a.id, b.id))
  }

  function InsertView(v: View, vs: seq<View>): seq<View> {
    if vs == [] || Before(v, vs[0]) then [v] + vs else [vs[0]] + InsertView(v, vs[1..])
  }

  /** `views.sort(key=...)`. */
  function SortViews(vs: seq<View>): seq<View> {
    if vs == [] then [] else InsertView(vs[|vs| - 1], SortViews(vs[..|vs| - 1]))
  }

  // ----- The conclusion ------------------------------------------------------

  datatype Conclusion = Conclusion(status: Status, revokedAt: Option<Instant>, reason: Option<Reason>)

  /** What a view says about a serial: when it was revoked, if it was. */
  function RevocationEntry(v: View, serial: nat): Option<Entry> {
    match v.body
    case CrlBody(entries) => if serial in entries then Some(entries[serial]) else None
    case OcspBody(s, _) =>
      if s.status == OcspRevoked && s.revocationTime.Some? then Some(Entry(s.revocationTime.value, s.reason)) else None
  }

  predicate Covers(v: View, at: Instant) {
    v.asOf >= at || (v.nextUpdate.Some? && v.nextUpdate.value >= at)
  }

  function Conclude(v: View, serial: nat, signedAt: Instant): Conclusion {
    if v.body.OcspBody? && v.body.single.status == OcspUnknown then Conclusion(UnknownStatus, None, None)
    else
      var entry := RevocationEntry(v, serial);
      if entry.Some? && entry.value.at <= signedAt then
        Conclusion(RevokedStatus, Some(entry.value.at), entry.value.reason)
      else Conclusion(if Covers(v, signedAt) then GoodStatus else StaleStatus, None, None)
  }

  // ----- All views of an inquiry, in the order the loops build them -------------

  function CrlSet(ev: Evidence, cert: Cert): set<Fp> {
    set fp | fp in ev.crls && IsCrlFor(ev, cert, fp)
  }

  function BaseSet(ev: Evidence, cert: Cert, auth: Authority, delta: Fp): set<Fp> {
    set fp | fp in ev.crls && IsPair(ev, cert, auth, fp, delta)
  }

  function OcspSet(ev: Evidence, cert: Cert, auth: Authority): set<Fp> {
    set fp | fp in ev.ocsps && IsOcspFor(ev, cert, auth, fp)
  }

  /** All the evidence an inquiry looks at. */
  function Relevant(ev: Evidence, cert: Cert, auth: Authority): set<Fp> {
    CrlSet(ev, cert) + OcspSet(ev, cert, auth)
  }

  /** The views, deltas and pairs found among the first `n` of a list. */
  function CrlViews(ev: Evidence, cert: Cert, auth: Authority, fps: seq<Fp>, n: nat): seq<View>
    requires n <= |fps|
  {
    if n == 0 then []
    else CrlViews(ev, cert, auth, fps, n - 1)
         + if IsComplete(ev, cert, auth, fps[n - 1]) then [ViewOf(ev, cert, auth, CrlId(fps[n - 1]))] else []
  }

  function DeltaList(ev: Evidence, cert: Cert, auth: Authority, fps: seq<Fp>, n: nat): (r: seq<Fp>)
    requires n <= |fps|
  {
    if n == 0 then []
    else DeltaList(ev, cert, auth, fps, n - 1) + if IsDelta(ev, cert, auth, fps[n - 1]) then [fps[n - 1]] else []
  }

  function MergedViews(ev: Evidence, cert: Cert, auth: Authority, delta: Fp, bases: seq<Fp>, n: nat): seq<View>
    requires n <= |bases| && forall fp :: fp in bases ==> IsPair(ev, cert, auth, fp, delta)
  {
    if n == 0 then []
    else MergedViews(ev, cert, auth, delta, bases, n - 1) + [ViewOf(ev, cert, auth, PairId(bases[n - 1], delta))]
  }

  function BaseList(ev: Evidence, cert: Cert, auth: Authority, delta: Fp): (r: seq<Fp>)
    ensures forall fp :: fp in r ==> IsPair(ev, cert, auth, fp, delta)
  {
    Ascending(BaseSet(ev, cert, auth, delta))
  }

  /** One delta merged with each of its bases. */
  function MergedWith(ev: Evidence, cert: Cert, auth: Authority, delta: Fp): seq<View> {
    var bases := BaseList(ev, cert, auth, delta);
    MergedViews(ev, cert, auth, delta, bases, |bases|)
  }

  function PairViews(ev: Evidence, cert: Cert, auth: Authority, deltas: seq<Fp>, n: nat): seq<View>
    requires n <= |deltas|
  {
    if n == 0 then [] else PairViews(ev, cert, auth, deltas, n - 1) + MergedWith(ev, cert, auth, deltas[n - 1])
  }

  function OcspViews(ev: Evidence, cert: Cert, auth: Authority, fps: seq<Fp>, n: nat): seq<View>
    requires n <= |fps|
  {
    if n == 0 then []
    else OcspViews(ev, cert, auth, fps, n - 1)
         + if IsResponse(ev, cert, auth, fps[n - 1]) then [ViewOf(ev, cert, auth, OcspId(fps[n - 1]))] else []
  }

  function CrlList(ev: Evidence, cert: Cert): seq<Fp> {
    Ascending(CrlSet(ev, cert))
  }

  function OcspList(ev: Evidence): seq<Fp> {
    Ascending(ev.ocsps.Keys)
  }

  function Deltas(ev: Evidence, cert: Cert, auth: Authority): seq<Fp> {
    DeltaList(ev, cert, auth, CrlList(ev, cert), |CrlList(ev, cert)|)
  }

  function Views(ev: Evidence, cert: Cert, auth: Authority): seq<View> {
    CrlViews(ev, cert, auth, CrlList(ev, cert), |CrlList(ev, cert)|)
    + PairViews(ev, cert, auth, Deltas(ev, cert, auth), |Deltas(ev, cert, auth)|)
    + OcspViews(ev, cert, auth, OcspList(ev), |OcspList(ev)|)
  }

  /** Some evidence in scope is unusable in a way that makes "no view" malformed. */
  ghost predicate AnyDefective(ev: Evidence, cert: Cert, auth: Authority) {
    || (exists fp :: IsCrlFor(ev, cert, fp) && IsDefective(CrlFate(ev, auth, fp)))
    || (exists fp :: IsDelta(ev, cert, auth, fp) && BaseSet(ev, cert, auth, fp) == {})
    || (exists fp :: IsOcspFor(ev, cert, auth, fp) && IsDefective(OcspFate(ev, cert, auth, fp)))
  }

  ghost function SelectedView(ev: Evidence, cert: Cert, auth: Authority): Option<View> {
    var views := SortViews(Views(ev, cert, auth));
    if views == [] then None else Some(views[0])
  }

  /** The outcome of an inquiry as a function of the evidence. */
  ghost function ConclusionOf(ev: Evidence, cert: Cert, auth: Authority): Conclusion {
    match SelectedView(ev, cert, auth)
    case Some(v) => Conclude(v, cert.serial, ev.signedAt)
    case None => Conclusion(if AnyDefective(ev, cert, auth) then MalformedStatus else UnknownStatus, None, None)
  }
}
