/** What the evidence says of a certificate, in its own fields: what each CRL, pair of CRLs and OCSP
    response tells, which of them is believed, and what follows. This is the independent
    reading of the views and of the conclusion drawn from the selected one. */
module RevocationMeaning {
  import opened Basics
  import opened Certificates
  import opened Revocation
  import opened RevocationViews

  // ----- CRLs ------------------------------------------------------------------------------

  /** A base and a delta for it. */
  predicate Fits(base: Crl, delta: Crl) {
    && base.baseNumber == None && delta.baseNumber.Some? && delta.baseNumber == base.number
    && base.issuer == delta.issuer && base.aki == delta.aki && base.idp == delta.idp
    && (delta.number == None || delta.number.value > base.number.value)
  }

  // ----- OCSP responses ----------------------------------------------------------------------

  /** A single response is about the certificate: by serial number, and by the issuer's name and key
      under SHA-1 or SHA-256. */
  predicate About(ev: Evidence, cert: Cert, auth: Authority, s: Single) {
    && s.serial == cert.serial && (s.alg == Sha1 || s.alg == Sha256)
    && s.nameHash == ev.hashes.name(s.alg, auth.subject) && s.keyHash == ev.hashes.key(s.alg, auth.key)
  }

  /** Single response `i` is the first about the certificate. */
  predicate Answers(ev: Evidence, cert: Cert, auth: Authority, responses: seq<Single>, i: int) {
    0 <= i < |responses| && About(ev, cert, auth, responses[i])
    && forall j :: 0 <= j < i ==> !About(ev, cert, auth, responses[j])
  }

  /** The responder is identified by the SHA-1 hash of this key or by this name. */
  predicate Identifies(ev: Evidence, id: ResponderId, name: Token, key: Key) {
    id == ByName(name) || id == ByKey(ev.hashes.key(Sha1, key))
  }

  /** The issuer has signed the response itself. */
  predicate SignedByIssuer(ev: Evidence, ocsp: Ocsp, auth: Authority) {
    auth.key.inProfile && auth.key in ocsp.verifiesUnder && Identifies(ev, ocsp.responderId, auth.subject, auth.key)
  }

  /** A certificate in profile that the issuer has signed and that was for OCSP and in force when
      the response was made, and whose key has signed it. */
  predicate SignedByDelegate(ev: Evidence, ocsp: Ocsp, auth: Authority, r: Cert) {
    && r.issuer == auth.subject && r.sigAlgKnown && auth.key in r.verifiesUnder
    && !r.unsupported && r.eku.Some? && OcspSigning in r.eku.value
    && r.notBefore <= ocsp.producedAt && ocsp.producedAt <= r.notAfter
    && r.key in ocsp.verifiesUnder && Identifies(ev, ocsp.responderId, r.subject, r.key)
  }

  ghost predicate SignedByRight(ev: Evidence, ocsp: Ocsp, auth: Authority) {
    ocsp.sigAlgKnown
    && (SignedByIssuer(ev, ocsp, auth)
        || exists i :: 0 <= i < |ocsp.embedded| && ocsp.embedded[i].Some?
                       && SignedByDelegate(ev, ocsp, auth, ocsp.embedded[i].value))
  }

  // ----- What one source tells -----------------------------------------------------------------

  /** As of when and until when; whether and when the certificate was revoked; whether the source
      says that it does not know. */
  datatype Telling = Telling(
    asOf: Instant, nextUpdate: Option<Instant>, revoked: Option<(Instant, Option<Reason>)>, unknown: bool)

  function Entered(entries: Entries, serial: nat): Option<(Instant, Option<Reason>)> {
    if serial in entries then Some((entries[serial].at, entries[serial].reason)) else None
  }

  /** The delta decides where it speaks, and takes back where it says so. */
  function EnteredInPair(base: Entries, delta: Entries, serial: nat): Option<(Instant, Option<Reason>)> {
    if serial !in delta then Entered(base, serial)
    else if delta[serial].reason == Some(RemoveFromCrl) then None
    else Entered(delta, serial)
  }

  function ToldBySingle(s: Single): Telling {
    Telling(s.thisUpdate, s.nextUpdate,
            if s.status == OcspRevoked && s.revocationTime.Some? then Some((s.revocationTime.value, s.reason))
            else None,
            s.status == OcspUnknown)
  }

  /** This source is usable and tells this. */
  ghost predicate Tells(ev: Evidence, cert: Cert, auth: Authority, id: ViewId, t: Telling) {
    match id
    case CrlId(fp) =>
      Acceptable(ev, cert, auth, fp)
      && var crl := ev.crls[fp].item;
      crl.baseNumber == None
      && t == Telling(crl.thisUpdate, crl.nextUpdate, Entered(crl.entries, cert.serial), false)
    case PairId(base, delta) =>
      Acceptable(ev, cert, auth, base) && Acceptable(ev, cert, auth, delta)
      && var b, d := ev.crls[base].item, ev.crls[delta].item;
      Fits(b, d)
      && t == Telling(d.thisUpdate, d.nextUpdate, EnteredInPair(b.entries, d.entries, cert.serial), false)
    case OcspId(fp) =>
      fp in ev.ocsps && ev.ocsps[fp].at <= ev.cutoff
      && var ocsp := ev.ocsps[fp].item;
      !ocsp.unsupported && SignedByRight(ev, ocsp, auth)
      && exists i :: Answers(ev, cert, auth, ocsp.responses, i)
           && (ocsp.responses[i].status == OcspRevoked ==> ocsp.responses[i].revocationTime.Some?)
           && t == ToldBySingle(ocsp.responses[i])
  }

  /** The source believed is the latest, and of several the least by id. */
  ghost predicate Believed(ev: Evidence, cert: Cert, auth: Authority, id: ViewId, t: Telling) {
    Tells(ev, cert, auth, id, t)
    && forall other, u :: Tells(ev, cert, auth, other, u) && other != id ==>
         t.asOf > u.asOf || (t.asOf == u.asOf && IdLess(id, other))
  }

  /** What follows from it for a signature made at `at`. */
  function Follows(t: Telling, at: Instant): Conclusion {
    if t.unknown then Conclusion(UnknownStatus, None, None)
    else if t.revoked.Some? && t.revoked.value.0 <= at then
      Conclusion(RevokedStatus, Some(t.revoked.value.0), t.revoked.value.1)
    else if at <= t.asOf || (t.nextUpdate.Some? && at <= t.nextUpdate.value) then
      Conclusion(GoodStatus, None, None)
    else Conclusion(StaleStatus, None, None)
  }

  /** Something in scope, received in time, is broken: a CRL for this key that is out of profile or
      not signed, a delta that no base fits, a response out of profile, not signed by right or
      revoked without a time. */
  ghost predicate SomethingBroken(ev: Evidence, cert: Cert, auth: Authority) {
    || (exists fp :: BrokenCrl(ev, cert, auth, fp))
    || (exists fp :: IdleDelta(ev, cert, auth, fp))
    || (exists fp :: BrokenOcsp(ev, cert, auth, fp))
  }

  predicate BrokenCrl(ev: Evidence, cert: Cert, auth: Authority, fp: Fp) {
    fp in ev.crls && ev.crls[fp].at <= ev.cutoff
    && var crl := ev.crls[fp].item;
    crl.issuer == cert.issuer
    && (crl.unsupported
        || ((crl.aki == None || auth.ski == None || crl.aki == auth.ski)
            && !(crl.sigAlgKnown && auth.key.inProfile && auth.key in crl.verifiesUnder)))
  }

  ghost predicate IdleDelta(ev: Evidence, cert: Cert, auth: Authority, fp: Fp) {
    Acceptable(ev, cert, auth, fp) && ev.crls[fp].item.baseNumber.Some?
    && forall base :: Acceptable(ev, cert, auth, base) ==> !Fits(ev.crls[base].item, ev.crls[fp].item)
  }

  ghost predicate BrokenOcsp(ev: Evidence, cert: Cert, auth: Authority, fp: Fp) {
    fp in ev.ocsps && ev.ocsps[fp].at <= ev.cutoff
    && var ocsp := ev.ocsps[fp].item;
    exists i :: Answers(ev, cert, auth, ocsp.responses, i)
      && (ocsp.unsupported || !SignedByRight(ev, ocsp, auth)
          || (ocsp.responses[i].status == OcspRevoked && ocsp.responses[i].revocationTime == None))
  }

  /** The evidence says that the certificate was not revoked at the time of signing. */
  ghost predicate SaysGood(ev: Evidence, cert: Cert, auth: Authority) {
    exists id, t :: Believed(ev, cert, auth, id, t) && Follows(t, ev.signedAt).status == GoodStatus
  }

  // ----- The readings agree ----------------------------------------------------------------------

  lemma FirstAnswers(ev: Evidence, cert: Cert, auth: Authority, responses: seq<Single>)
    ensures FirstMatch(ev, cert, auth, responses) == None <==> forall i :: !Answers(ev, cert, auth, responses, i)
    ensures forall i :: Answers(ev, cert, auth, responses, i) ==>
              FirstMatch(ev, cert, auth, responses) == Some(responses[i])
    ensures FirstMatch(ev, cert, auth, responses).Some? ==> exists i :: Answers(ev, cert, auth, responses, i)
  {
    FirstMatchMeans(ev, cert, auth, responses);
    AboutMeans(ev, cert, auth);
    hide About, SingleMatches;
    var found := FirstMatch(ev, cert, auth, responses);
    if found.Some? {
      var i :| 0 <= i < |responses| && responses[i] == found.value && SingleMatches(ev, cert, auth, found.value)
               && forall j :: 0 <= j < i ==> !SingleMatches(ev, cert, auth, responses[j]);
      assert Answers(ev, cert, auth, responses, i);
    }
  }

  lemma AboutMeans(ev: Evidence, cert: Cert, auth: Authority)
    ensures forall s :: SingleMatches(ev, cert, auth, s) <==> About(ev, cert, auth, s)
  {
  }

  lemma RightMeans(ev: Evidence, ocsp: Ocsp, auth: Authority)
    ensures Authorized(ev, ocsp, auth).Some? <==> SignedByRight(ev, ocsp, auth)
  {
    SomeDelegate(ev, ocsp, auth, ocsp.embedded);
    assert SignedByIssuer(ev, ocsp, auth) <==>
             auth.key.inProfile && ResponderMatches(ev, ocsp, auth.subject, auth.key) && auth.key in ocsp.verifiesUnder;
    forall r ensures DelegateOk(ev, ocsp, auth, r) <==> SignedByDelegate(ev, ocsp, auth, r) {
    }
    hide DelegateOk, SignedByDelegate, SignedByIssuer, FirstDelegate;
  }

  lemma ResponseMeans(ev: Evidence, cert: Cert, auth: Authority, fp: Fp, i: int)
    requires fp in ev.ocsps && Answers(ev, cert, auth, ev.ocsps[fp].item.responses, i)
    ensures var Received(ocsp, at) := ev.ocsps[fp];
            var s := ocsp.responses[i];
            && IsOcspFor(ev, cert, auth, fp)
            && (IsResponse(ev, cert, auth, fp) <==>
                  at <= ev.cutoff && !ocsp.unsupported && SignedByRight(ev, ocsp, auth)
                  && (s.status == OcspRevoked ==> s.revocationTime.Some?))
            && (IsResponse(ev, cert, auth, fp) ==> OcspFate(ev, cert, auth, fp).single == s)
            && (IsDefective(OcspFate(ev, cert, auth, fp)) <==>
                  at <= ev.cutoff
                  && (ocsp.unsupported || !SignedByRight(ev, ocsp, auth)
                      || (s.status == OcspRevoked && s.revocationTime == None)))
  {
    hide SignedByRight, Authorized, Answers;
    FirstAnswers(ev, cert, auth, ev.ocsps[fp].item.responses);
    RightMeans(ev, ev.ocsps[fp].item, auth);
  }

  /** The telling of a view. */
  function ToldBy(v: View, serial: nat): Telling {
    match v.body
    case CrlBody(entries) => Telling(v.asOf, v.nextUpdate, Entered(entries, serial), false)
    case OcspBody(s, _) => Telling(v.asOf, v.nextUpdate, ToldBySingle(s).revoked, s.status == OcspUnknown)
  }

  /** The views are the usable sources, and say what these tell. */
  lemma TellsMeans(ev: Evidence, cert: Cert, auth: Authority, id: ViewId, t: Telling)
    ensures Tells(ev, cert, auth, id, t) <==>
              IsView(ev, cert, auth, id) && t == ToldBy(ViewOf(ev, cert, auth, id), cert.serial)
  {
    match id
    case CrlId(fp) => CrlTells(ev, cert, auth, fp, t);
    case PairId(base, delta) => PairTells(ev, cert, auth, base, delta, t);
    case OcspId(fp) => OcspTells(ev, cert, auth, fp, t);
  }

  lemma CrlTells(ev: Evidence, cert: Cert, auth: Authority, fp: Fp, t: Telling)
    ensures Tells(ev, cert, auth, CrlId(fp), t) <==>
              IsView(ev, cert, auth, CrlId(fp)) && t == ToldBy(ViewOf(ev, cert, auth, CrlId(fp)), cert.serial)
  {
    CrlsAreSorted(ev, cert, auth, fp);
    hide CrlFate, Acceptable;
  }

  lemma PairTells(ev: Evidence, cert: Cert, auth: Authority, base: Fp, delta: Fp, t: Telling)
    ensures Tells(ev, cert, auth, PairId(base, delta), t) <==>
              && IsView(ev, cert, auth, PairId(base, delta))
              && t == ToldBy(ViewOf(ev, cert, auth, PairId(base, delta)), cert.serial)
  {
    CrlsAreSorted(ev, cert, auth, base);
    CrlsAreSorted(ev, cert, auth, delta);
    hide CrlFate;
  }

  lemma OcspTells(ev: Evidence, cert: Cert, auth: Authority, fp: Fp, t: Telling)
    ensures Tells(ev, cert, auth, OcspId(fp), t) <==>
              IsView(ev, cert, auth, OcspId(fp)) && t == ToldBy(ViewOf(ev, cert, auth, OcspId(fp)), cert.serial)
  {
    hide SignedByRight, OcspFate, About, FirstMatch;
    if fp in ev.ocsps {
      var responses := ev.ocsps[fp].item.responses;
      FirstAnswers(ev, cert, auth, responses);
      if i :| Answers(ev, cert, auth, responses, i) {
        ResponseMeans(ev, cert, auth, fp, i);
        forall k | Answers(ev, cert, auth, responses, k) ensures k == i {
        }
      }
    }
  }

  lemma BrokenMeans(ev: Evidence, cert: Cert, auth: Authority)
    ensures AnyDefective(ev, cert, auth) <==> SomethingBroken(ev, cert, auth)
  {
    hide BrokenCrl, IdleDelta, BrokenOcsp, CrlFate, OcspFate, Acceptable, FirstMatch;
    forall fp ensures IsCrlFor(ev, cert, fp) && IsDefective(CrlFate(ev, auth, fp)) <==> BrokenCrl(ev, cert, auth, fp) {
      BrokenCrlMeans(ev, cert, auth, fp);
    }
    forall fp
      ensures IsDelta(ev, cert, auth, fp) && BaseSet(ev, cert, auth, fp) == {} <==> IdleDelta(ev, cert, auth, fp)
    {
      IdleMeans(ev, cert, auth, fp);
    }
    forall fp
      ensures IsOcspFor(ev, cert, auth, fp) && IsDefective(OcspFate(ev, cert, auth, fp))
         <==> BrokenOcsp(ev, cert, auth, fp)
    {
      BrokenOcspMeans(ev, cert, auth, fp);
    }
  }

  lemma BrokenCrlMeans(ev: Evidence, cert: Cert, auth: Authority, fp: Fp)
    ensures IsCrlFor(ev, cert, fp) && IsDefective(CrlFate(ev, auth, fp)) <==> BrokenCrl(ev, cert, auth, fp)
  {
  }

  lemma IdleMeans(ev: Evidence, cert: Cert, auth: Authority, fp: Fp)
    ensures IsDelta(ev, cert, auth, fp) && BaseSet(ev, cert, auth, fp) == {} <==> IdleDelta(ev, cert, auth, fp)
  {
    forall base
      ensures IsPair(ev, cert, auth, base, fp) <==>
                Acceptable(ev, cert, auth, base) && Acceptable(ev, cert, auth, fp)
                && Fits(ev.crls[base].item, ev.crls[fp].item)
    {
      CrlsAreSorted(ev, cert, auth, base);
      CrlsAreSorted(ev, cert, auth, fp);
    }
    CrlsAreSorted(ev, cert, auth, fp);
    hide CrlFate, Acceptable, Fits;
    forall base ensures IsPair(ev, cert, auth, base, fp) <==> base in BaseSet(ev, cert, auth, fp) {
    }
  }

  lemma BrokenOcspMeans(ev: Evidence, cert: Cert, auth: Authority, fp: Fp)
    ensures IsOcspFor(ev, cert, auth, fp) && IsDefective(OcspFate(ev, cert, auth, fp))
       <==> BrokenOcsp(ev, cert, auth, fp)
  {
    hide SignedByRight, OcspFate, About, FirstMatch;
    if fp in ev.ocsps {
      var responses := ev.ocsps[fp].item.responses;
      FirstAnswers(ev, cert, auth, responses);
      if i :| Answers(ev, cert, auth, responses, i) {
        ResponseMeans(ev, cert, auth, fp, i);
        forall k | Answers(ev, cert, auth, responses, k) ensures k == i {
        }
      }
    }
  }

  /** The conclusion follows from what the source believed tells; without any usable source it is
      UNKNOWN, or MALFORMED if something is broken. */
  lemma ConclusionMeans(ev: Evidence, cert: Cert, auth: Authority)
    ensures forall id, t :: Believed(ev, cert, auth, id, t) ==> ConclusionOf(ev, cert, auth) == Follows(t, ev.signedAt)
    ensures (exists id, t :: Tells(ev, cert, auth, id, t)) ==> exists id, t :: Believed(ev, cert, auth, id, t)
    ensures (forall id, t :: !Tells(ev, cert, auth, id, t)) ==>
              ConclusionOf(ev, cert, auth)
                == Conclusion(if SomethingBroken(ev, cert, auth) then MalformedStatus else UnknownStatus, None, None)
  {
    hide Tells, IsView, ViewOf, SelectedView, AnyDefective, SomethingBroken;
    SelectedIsBest(ev, cert, auth);
    BrokenMeans(ev, cert, auth);
    forall id, t
      ensures Tells(ev, cert, auth, id, t) <==>
                IsView(ev, cert, auth, id) && t == ToldBy(ViewOf(ev, cert, auth, id), cert.serial)
    {
      TellsMeans(ev, cert, auth, id, t);
    }
    BelievedIsBest(ev, cert, auth);
    var s := SelectedView(ev, cert, auth);
    if s.Some? {
      assert IsBest(ev, cert, auth, s.value);
      var t := ToldBy(s.value, cert.serial);
      assert Believed(ev, cert, auth, s.value.id, t);
    }
    forall id, t | Believed(ev, cert, auth, id, t)
      ensures ConclusionOf(ev, cert, auth) == Follows(t, ev.signedAt)
    {
      var v := ViewOf(ev, cert, auth, id);
      assert IsBest(ev, cert, auth, v);
      FollowsMeans(v, cert.serial, ev.signedAt);
    }
  }

  lemma BelievedIsBest(ev: Evidence, cert: Cert, auth: Authority)
    ensures forall id, t :: Believed(ev, cert, auth, id, t) <==>
              && IsView(ev, cert, auth, id) && t == ToldBy(ViewOf(ev, cert, auth, id), cert.serial)
              && IsBest(ev, cert, auth, ViewOf(ev, cert, auth, id))
  {
    hide Tells, IsView;
    forall id, t
      ensures Tells(ev, cert, auth, id, t) <==>
                IsView(ev, cert, auth, id) && t == ToldBy(ViewOf(ev, cert, auth, id), cert.serial)
    {
      TellsMeans(ev, cert, auth, id, t);
    }
    forall id | IsView(ev, cert, auth, id)
      ensures ViewOf(ev, cert, auth, id).id == id
      ensures ToldBy(ViewOf(ev, cert, auth, id), cert.serial).asOf == ViewOf(ev, cert, auth, id).asOf
    {
      OneIsExact(ev, cert, auth, id);
    }
    hide ViewOf, ToldBy;
    forall id, t | Believed(ev, cert, auth, id, t) ensures IsBest(ev, cert, auth, ViewOf(ev, cert, auth, id)) {
      forall other | IsView(ev, cert, auth, other) && other != id
        ensures Before(ViewOf(ev, cert, auth, id), ViewOf(ev, cert, auth, other))
      {
        assert Tells(ev, cert, auth, other, ToldBy(ViewOf(ev, cert, auth, other), cert.serial));
      }
    }
  }

  lemma FollowsMeans(v: View, serial: nat, at: Instant)
    ensures Conclude(v, serial, at) == Follows(ToldBy(v, serial), at)
  {
  }

  /** GOOD is said exactly when the evidence says so. */
  lemma GoodMeans(ev: Evidence, cert: Cert, auth: Authority)
    ensures ConclusionOf(ev, cert, auth).status == GoodStatus <==> SaysGood(ev, cert, auth)
  {
    hide Tells, ConclusionOf, Believed, SomethingBroken;
    ConclusionMeans(ev, cert, auth);
    if exists id, t :: Tells(ev, cert, auth, id, t) {
      var id, t :| Believed(ev, cert, auth, id, t);
    }
  }

  // ----- Why evidence is not used ------------------------------------------------------------------

  /** What becomes of a CRL, by its fields: the first reason that applies. */
  lemma CrlFateMeans(ev: Evidence, auth: Authority, fp: Fp)
    requires fp in ev.crls
    ensures var Received(crl, at) := ev.crls[fp];
            var timely, sameKey := at <= ev.cutoff, crl.aki == None || auth.ski == None || crl.aki == auth.ski;
            var signed := crl.sigAlgKnown && auth.key.inProfile && auth.key in crl.verifiesUnder;
            match CrlFate(ev, auth, fp)
            case Late => !timely
            case OutOfProfile => timely && crl.unsupported
            case WrongKey => timely && !crl.unsupported && !sameKey
            case BadSignature => timely && !crl.unsupported && sameKey && !signed
            case DeltaCrl => timely && !crl.unsupported && sameKey && signed && crl.baseNumber.Some?
            case CompleteCrl => timely && !crl.unsupported && sameKey && signed && crl.baseNumber == None
            case _ => false
  {
  }

  /** The first embedded certificate that is a good delegate is this one. */
  ghost predicate FirstGoodDelegate(ev: Evidence, ocsp: Ocsp, auth: Authority, rs: seq<Option<Cert>>, fp: Fp) {
    exists k :: 0 <= k < |rs| && rs[k].Some? && rs[k].value.fp == fp && SignedByDelegate(ev, ocsp, auth, rs[k].value)
                && forall j :: 0 <= j < k && rs[j].Some? ==> !SignedByDelegate(ev, ocsp, auth, rs[j].value)
  }

  /** What becomes of an OCSP response whose single response `i` is the first about the certificate. */
  lemma OcspFateMeans(ev: Evidence, cert: Cert, auth: Authority, fp: Fp, i: int)
    requires fp in ev.ocsps && Answers(ev, cert, auth, ev.ocsps[fp].item.responses, i)
    ensures IsOcspFor(ev, cert, auth, fp)
    ensures var Received(ocsp, at) := ev.ocsps[fp];
            var timely, right := at <= ev.cutoff, SignedByRight(ev, ocsp, auth);
            var timeless := ocsp.responses[i].status == OcspRevoked && ocsp.responses[i].revocationTime == None;
            match OcspFate(ev, cert, auth, fp)
            case Late => !timely
            case OutOfProfile => timely && ocsp.unsupported
            case Unauthorized => timely && !ocsp.unsupported && !right
            case RevokedWithoutTime => timely && !ocsp.unsupported && right && timeless
            case Response(s, r) =>
              timely && !ocsp.unsupported && right && !timeless && s == ocsp.responses[i]
              && (r == Direct <==> SignedByIssuer(ev, ocsp, auth))
              && (r.Delegated? ==> FirstGoodDelegate(ev, ocsp, auth, ocsp.embedded, r.fp))
            case _ => false
  {
    hide Answers, About;
    FirstAnswers(ev, cert, auth, ev.ocsps[fp].item.responses);
    RightMeans(ev, ev.ocsps[fp].item, auth);
    var ocsp := ev.ocsps[fp].item;
    assert SignedByIssuer(ev, ocsp, auth) <==>
             auth.key.inProfile && ResponderMatches(ev, ocsp, auth.subject, auth.key) && auth.key in ocsp.verifiesUnder;
    DelegateMeans(ev, ocsp, auth, ocsp.embedded);
    hide SignedByIssuer, SignedByDelegate, FirstDelegate, ResponderMatches;
  }

  /** The delegate accepted is the first embedded certificate that is a good one. */
  lemma {:induction false} DelegateMeans(ev: Evidence, ocsp: Ocsp, auth: Authority, rs: seq<Option<Cert>>)
    ensures FirstDelegate(ev, ocsp, auth, rs).Some? ==>
              && FirstDelegate(ev, ocsp, auth, rs).value.Delegated?
              && FirstGoodDelegate(ev, ocsp, auth, rs, FirstDelegate(ev, ocsp, auth, rs).value.fp)
  {
    forall r ensures DelegateOk(ev, ocsp, auth, r) <==> SignedByDelegate(ev, ocsp, auth, r) {
    }
    hide SignedByDelegate, DelegateOk;
    if rs != [] && !(rs[0].Some? && SignedByDelegate(ev, ocsp, auth, rs[0].value)) {
      var rest := rs[1..];
      DelegateMeans(ev, ocsp, auth, rest);
      if FirstDelegate(ev, ocsp, auth, rest).Some? {
        var k :| 0 <= k < |rest| && rest[k].Some?
                 && rest[k].value.fp == FirstDelegate(ev, ocsp, auth, rest).value.fp
                 && SignedByDelegate(ev, ocsp, auth, rest[k].value)
                 && forall j :: 0 <= j < k && rest[j].Some? ==> !SignedByDelegate(ev, ocsp, auth, rest[j].value);
        assert rs[k + 1] == rest[k];
        assert forall j :: 0 < j < k + 1 ==> rs[j] == rest[j - 1];
      }
    }
  }

  // ----- The conclusion, kind by kind ------------------------------------------------------------

  /** Revoked at this time for this reason, which is by the time of signing. */
  predicate IsRevoked(c: Conclusion, at: Instant, reason: Option<Reason>) {
    c == Conclusion(RevokedStatus, Some(at), reason)
  }

  /** Not revoked, and GOOD or STALE by the period that the evidence covers. */
  predicate IsCurrent(c: Conclusion, asOf: Instant, nextUpdate: Option<Instant>, at: Instant) {
    c == Conclusion(if asOf >= at || (nextUpdate.Some? && nextUpdate.value >= at) then GoodStatus else StaleStatus,
                    None, None)
  }

  /** What a CRL says of a serial number that it lists, or does not list. */
  predicate FromEntry(c: Conclusion, listed: bool, e: Entry, asOf: Instant, next: Option<Instant>, at: Instant) {
    if listed && e.at <= at then IsRevoked(c, e.at, e.reason) else IsCurrent(c, asOf, next, at)
  }

  const NO_ENTRY := Entry(0, None)

  /** The conclusion, by the fields of the view's evidence: of a CRL, by its entry for the serial
      number; of a base and a delta, by the delta's entry where it has one; of an OCSP response,
      by the first single response about the certificate. */
  ghost predicate ByFields(ev: Evidence, cert: Cert, auth: Authority, id: ViewId, c: Conclusion) {
    match id
    case CrlId(fp) =>
      fp in ev.crls
      && var crl := ev.crls[fp].item;
      FromEntry(c, cert.serial in crl.entries,
                if cert.serial in crl.entries then crl.entries[cert.serial] else NO_ENTRY,
                crl.thisUpdate, crl.nextUpdate, ev.signedAt)
    case PairId(base, delta) =>
      base in ev.crls && delta in ev.crls
      && var b, d := ev.crls[base].item, ev.crls[delta].item;
      if cert.serial in d.entries then
        FromEntry(c, d.entries[cert.serial].reason != Some(RemoveFromCrl), d.entries[cert.serial],
                  d.thisUpdate, d.nextUpdate, ev.signedAt)
      else
        FromEntry(c, cert.serial in b.entries,
                  if cert.serial in b.entries then b.entries[cert.serial] else NO_ENTRY,
                  d.thisUpdate, d.nextUpdate, ev.signedAt)
    case OcspId(fp) =>
      fp in ev.ocsps
      && var responses := ev.ocsps[fp].item.responses;
      exists i :: Answers(ev, cert, auth, responses, i) && BySingle(c, responses[i], ev.signedAt)
  }

  predicate BySingle(c: Conclusion, s: Single, at: Instant) {
    match s.status
    case OcspUnknown => c == Conclusion(UnknownStatus, None, None)
    case OcspGood => IsCurrent(c, s.thisUpdate, s.nextUpdate, at)
    case OcspRevoked =>
      s.revocationTime.Some?
      && if s.revocationTime.value <= at then IsRevoked(c, s.revocationTime.value, s.reason)
         else IsCurrent(c, s.thisUpdate, s.nextUpdate, at)
  }

  lemma FieldsFollow(ev: Evidence, cert: Cert, auth: Authority, id: ViewId, t: Telling)
    requires Tells(ev, cert, auth, id, t)
    ensures ByFields(ev, cert, auth, id, Follows(t, ev.signedAt))
  {
    hide About, SignedByRight;
  }

  /** The objects that a view is made of. */
  function Sources(id: ViewId): set<Fp> {
    match id
    case CrlId(fp) => {fp}
    case PairId(base, delta) => {base, delta}
    case OcspId(fp) => {fp}
  }

  /** What is concluded from the selected view, and which objects count as used for it. */
  lemma StatusMeans(ev: Evidence, cert: Cert, auth: Authority)
    requires SelectedView(ev, cert, auth).Some?
    ensures var v := SelectedView(ev, cert, auth).value;
            forall fp :: fp in v.evidence <==> fp in Sources(v.id)
    ensures ByFields(ev, cert, auth, SelectedView(ev, cert, auth).value.id, ConclusionOf(ev, cert, auth))
  {
    hide Tells, IsView, ViewOf, ConclusionOf, ByFields, SelectedView;
    SelectedIsBest(ev, cert, auth);
    var v := SelectedView(ev, cert, auth).value;
    assert IsBest(ev, cert, auth, v);
    var t := ToldBy(v, cert.serial);
    BelievedIsBest(ev, cert, auth);
    ConclusionMeans(ev, cert, auth);
    assert Believed(ev, cert, auth, v.id, t);
    FieldsFollow(ev, cert, auth, v.id, t);
    SourcesMean(ev, cert, auth, v.id);
  }

  lemma SourcesMean(ev: Evidence, cert: Cert, auth: Authority, id: ViewId)
    requires IsView(ev, cert, auth, id)
    ensures forall fp :: fp in ViewOf(ev, cert, auth, id).evidence <==> fp in Sources(id)
  {
  }
}
