/** What the selection of revocation evidence guarantees. */
module RevocationViews {
  import opened Basics
  import opened Certificates
  import opened Revocation

  // ----- The views are exactly the supported ones, each once --------------------

  ghost predicate Exact(ev: Evidence, cert: Cert, auth: Authority, views: seq<View>) {
    && (forall i :: 0 <= i < |views| ==>
          IsView(ev, cert, auth, views[i].id) && views[i] == ViewOf(ev, cert, auth, views[i].id))
    && (forall i, j :: 0 <= i < j < |views| ==> views[i].id != views[j].id)
  }

  lemma AppendExact(ev: Evidence, cert: Cert, auth: Authority, a: seq<View>, b: seq<View>)
    requires Exact(ev, cert, auth, a) && Exact(ev, cert, auth, b)
    requires forall v, w :: v in a && w in b ==> v.id != w.id
    ensures Exact(ev, cert, auth, a + b)
  {
    forall i, j | 0 <= i < j < |a + b| ensures (a + b)[i].id != (a + b)[j].id {
      if i < |a| <= j {
        assert a[i] in a && b[j - |a|] in b;
      }
    }
  }

  lemma NoneIsExact(ev: Evidence, cert: Cert, auth: Authority)
    ensures Exact(ev, cert, auth, [])
  {
  }

  lemma OneIsExact(ev: Evidence, cert: Cert, auth: Authority, id: ViewId)
    requires IsView(ev, cert, auth, id)
    ensures Exact(ev, cert, auth, [ViewOf(ev, cert, auth, id)]) && ViewOf(ev, cert, auth, id).id == id
  {
  }

  lemma {:induction false} CrlViewsExact(ev: Evidence, cert: Cert, auth: Authority, fps: seq<Fp>, n: nat)
    requires n <= |fps| && StrictlyAscending(fps)
    ensures Exact(ev, cert, auth, CrlViews(ev, cert, auth, fps, n))
    ensures forall v :: v in CrlViews(ev, cert, auth, fps, n) ==> v.id.CrlId? && v.id.crl in fps[..n]
    ensures forall i :: 0 <= i < n && IsComplete(ev, cert, auth, fps[i]) ==>
              ViewOf(ev, cert, auth, CrlId(fps[i])) in CrlViews(ev, cert, auth, fps, n)
  {
    hide Exact, IsComplete, ViewOf;
    NoneIsExact(ev, cert, auth);
    if n > 0 {
      CrlViewsExact(ev, cert, auth, fps, n - 1);
      assert CrlViews(ev, cert, auth, fps, n - 1) + [] == CrlViews(ev, cert, auth, fps, n - 1);
      if IsComplete(ev, cert, auth, fps[n - 1]) {
        OneIsExact(ev, cert, auth, CrlId(fps[n - 1]));
        AppendExact(ev, cert, auth, CrlViews(ev, cert, auth, fps, n - 1), [ViewOf(ev, cert, auth, CrlId(fps[n - 1]))]);
      }
    }
  }

  lemma {:induction false} OcspViewsExact(ev: Evidence, cert: Cert, auth: Authority, fps: seq<Fp>, n: nat)
    requires n <= |fps| && StrictlyAscending(fps)
    ensures Exact(ev, cert, auth, OcspViews(ev, cert, auth, fps, n))
    ensures forall v :: v in OcspViews(ev, cert, auth, fps, n) ==> v.id.OcspId? && v.id.ocsp in fps[..n]
    ensures forall i :: 0 <= i < n && IsResponse(ev, cert, auth, fps[i]) ==>
              ViewOf(ev, cert, auth, OcspId(fps[i])) in OcspViews(ev, cert, auth, fps, n)
  {
    hide Exact, IsResponse, ViewOf;
    NoneIsExact(ev, cert, auth);
    if n > 0 {
      OcspViewsExact(ev, cert, auth, fps, n - 1);
      assert OcspViews(ev, cert, auth, fps, n - 1) + [] == OcspViews(ev, cert, auth, fps, n - 1);
      if IsResponse(ev, cert, auth, fps[n - 1]) {
        OneIsExact(ev, cert, auth, OcspId(fps[n - 1]));
        AppendExact(ev, cert, auth, OcspViews(ev, cert, auth, fps, n - 1),
            [ViewOf(ev, cert, auth, OcspId(fps[n - 1]))]);
      }
    }
  }

  lemma {:induction false} DeltaListMembers(ev: Evidence, cert: Cert, auth: Authority, fps: seq<Fp>, n: nat)
    requires n <= |fps| && StrictlyAscending(fps)
    ensures var r := DeltaList(ev, cert, auth, fps, n);
            StrictlyAscending(r) && forall fp :: fp in r <==> fp in fps[..n] && IsDelta(ev, cert, auth, fp)
  {
    if n > 0 {
      DeltaListMembers(ev, cert, auth, fps, n - 1);
      var rest := DeltaList(ev, cert, auth, fps, n - 1);
      assert forall k :: 0 <= k < |rest| ==> rest[k] in fps[..n - 1];
      assert fps[..n] == fps[..n - 1] + [fps[n - 1]];
    }
  }

  lemma {:induction false} MergedViewsMembers(ev: Evidence, cert: Cert, auth: Authority, delta: Fp, bases: seq<Fp>,
          n: nat)
    requires n <= |bases| && forall fp :: fp in bases ==> IsPair(ev, cert, auth, fp, delta)
    ensures |MergedViews(ev, cert, auth, delta, bases, n)| == n
    ensures forall i :: 0 <= i < n ==>
              MergedViews(ev, cert, auth, delta, bases, n)[i] == ViewOf(ev, cert, auth, PairId(bases[i], delta))
  {
    hide IsPair, ViewOf;
    if n > 0 {
      MergedViewsMembers(ev, cert, auth, delta, bases, n - 1);
    }
  }

  lemma MergedViewsExact(ev: Evidence, cert: Cert, auth: Authority, delta: Fp, bases: seq<Fp>)
    requires StrictlyAscending(bases) && forall fp :: fp in bases ==> IsPair(ev, cert, auth, fp, delta)
    ensures Exact(ev, cert, auth, MergedViews(ev, cert, auth, delta, bases, |bases|))
    ensures forall v :: v in MergedViews(ev, cert, auth, delta, bases, |bases|) ==> v.id.PairId? && v.id.delta == delta
    ensures forall i :: 0 <= i < |bases| ==>
              ViewOf(ev, cert, auth, PairId(bases[i], delta)) in MergedViews(ev, cert, auth, delta, bases, |bases|)
  {
    hide IsPair, ViewOf;
    var views := MergedViews(ev, cert, auth, delta, bases, |bases|);
    MergedViewsMembers(ev, cert, auth, delta, bases, |bases|);
    forall i | 0 <= i < |bases| ensures views[i].id == PairId(bases[i], delta) {
      OneIsExact(ev, cert, auth, PairId(bases[i], delta));
    }
  }

  lemma MergedWithExact(ev: Evidence, cert: Cert, auth: Authority, d: Fp)
    ensures Exact(ev, cert, auth, MergedWith(ev, cert, auth, d))
    ensures forall v :: v in MergedWith(ev, cert, auth, d) ==> v.id.PairId? && v.id.delta == d
    ensures forall b :: IsPair(ev, cert, auth, b, d) ==>
              ViewOf(ev, cert, auth, PairId(b, d)) in MergedWith(ev, cert, auth, d)
  {
    var bases := BaseList(ev, cert, auth, d);
    MergedViewsExact(ev, cert, auth, d, bases);
    forall b | IsPair(ev, cert, auth, b, d)
      ensures ViewOf(ev, cert, auth, PairId(b, d)) in MergedWith(ev, cert, auth, d)
    {
      assert b in BaseSet(ev, cert, auth, d) && b in bases;
      var i :| 0 <= i < |bases| && bases[i] == b;
    }
  }

  lemma {:induction false} PairViewsExact(ev: Evidence, cert: Cert, auth: Authority, deltas: seq<Fp>, n: nat)
    requires n <= |deltas| && StrictlyAscending(deltas)
    ensures Exact(ev, cert, auth, PairViews(ev, cert, auth, deltas, n))
    ensures forall v :: v in PairViews(ev, cert, auth, deltas, n) ==> v.id.PairId? && v.id.delta in deltas[..n]
    ensures forall b, i :: 0 <= i < n && IsPair(ev, cert, auth, b, deltas[i]) ==>
              ViewOf(ev, cert, auth, PairId(b, deltas[i])) in PairViews(ev, cert, auth, deltas, n)
  {
    hide Exact, IsPair, ViewOf, MergedWith;
    NoneIsExact(ev, cert, auth);
    if n > 0 {
      PairViewsExact(ev, cert, auth, deltas, n - 1);
      MergedWithExact(ev, cert, auth, deltas[n - 1]);
      AppendExact(ev, cert, auth, PairViews(ev, cert, auth, deltas, n - 1), MergedWith(ev, cert, auth, deltas[n - 1]));
    }
  }

  /** Each of the three parts of the list holds the views of its kind. */
  lemma PartsHold(ev: Evidence, cert: Cert, auth: Authority, id: ViewId)
    requires IsView(ev, cert, auth, id)
    ensures ViewOf(ev, cert, auth, id) in Views(ev, cert, auth)
  {
    hide ViewOf, IsComplete, IsDelta, IsResponse, CompatibleCrls;
    var crls, deltas, ocsps := CrlList(ev, cert), Deltas(ev, cert, auth), OcspList(ev);
    match id
    case CrlId(fp) =>
      CrlViewsExact(ev, cert, auth, crls, |crls|);
      ListsCrl(ev, cert, auth, fp);
    case PairId(x, d) =>
      DeltaListMembers(ev, cert, auth, crls, |crls|);
      PairViewsExact(ev, cert, auth, deltas, |deltas|);
      ListsDelta(ev, cert, auth, x, d);
    case OcspId(fp) =>
      OcspViewsExact(ev, cert, auth, ocsps, |ocsps|);
      ListsOcsp(ev, cert, auth, fp);
  }

  lemma ListsCrl(ev: Evidence, cert: Cert, auth: Authority, fp: Fp)
    requires IsComplete(ev, cert, auth, fp)
    ensures exists i :: 0 <= i < |CrlList(ev, cert)| && CrlList(ev, cert)[i] == fp
  {
    assert fp in CrlSet(ev, cert);
    assert fp in CrlList(ev, cert);
  }

  lemma ListsDelta(ev: Evidence, cert: Cert, auth: Authority, base: Fp, delta: Fp)
    requires IsPair(ev, cert, auth, base, delta)
    ensures exists i :: 0 <= i < |Deltas(ev, cert, auth)| && Deltas(ev, cert, auth)[i] == delta
  {
    var crls := CrlList(ev, cert);
    assert delta in CrlSet(ev, cert);
    assert delta in crls && crls[..|crls|] == crls;
    DeltaListMembers(ev, cert, auth, crls, |crls|);
    assert delta in Deltas(ev, cert, auth);
  }

  lemma ListsOcsp(ev: Evidence, cert: Cert, auth: Authority, fp: Fp)
    requires IsResponse(ev, cert, auth, fp)
    ensures exists i :: 0 <= i < |OcspList(ev)| && OcspList(ev)[i] == fp
  {
    assert fp in OcspList(ev);
  }

  lemma ViewsAreExact(ev: Evidence, cert: Cert, auth: Authority)
    ensures Exact(ev, cert, auth, Views(ev, cert, auth))
  {
    hide Exact, IsView, ViewOf;
    var crls, deltas, ocsps := CrlList(ev, cert), Deltas(ev, cert, auth), OcspList(ev);
    var a := CrlViews(ev, cert, auth, crls, |crls|);
    var b := PairViews(ev, cert, auth, deltas, |deltas|);
    var c := OcspViews(ev, cert, auth, ocsps, |ocsps|);
    DeltaListMembers(ev, cert, auth, crls, |crls|);
    CrlViewsExact(ev, cert, auth, crls, |crls|);
    PairViewsExact(ev, cert, auth, deltas, |deltas|);
    OcspViewsExact(ev, cert, auth, ocsps, |ocsps|);
    AppendExact(ev, cert, auth, a, b);
    AppendExact(ev, cert, auth, a + b, c);
  }

  /** The loops build exactly one view per valid complete CRL, per compatible base and
      delta, and per authorised matching OCSP response. */
  lemma ViewsExact(ev: Evidence, cert: Cert, auth: Authority)
    ensures Exact(ev, cert, auth, Views(ev, cert, auth))
    ensures forall id :: IsView(ev, cert, auth, id) <==>
              exists v :: v in Views(ev, cert, auth) && v.id == id
  {
    hide ViewOf, IsView, Views;
    var views := Views(ev, cert, auth);
    ViewsAreExact(ev, cert, auth);
    forall id | IsView(ev, cert, auth, id) ensures exists v: View :: v in views && v.id == id {
      PartsHold(ev, cert, auth, id);
      OneIsExact(ev, cert, auth, id);
      assert ViewOf(ev, cert, auth, id) in views;
    }
    forall v | v in views ensures IsView(ev, cert, auth, v.id) {
      var i :| 0 <= i < |views| && views[i] == v;
    }
  }

  // ----- The selected view is the unique maximum --------------------------------

  ghost predicate Ordered(vs: seq<View>) {
    forall i, j :: 0 <= i < j < |vs| ==> !Before(vs[j], vs[i])
  }

  lemma {:induction false} InsertOrdered(v: View, vs: seq<View>)
    requires Ordered(vs)
    ensures Ordered(InsertView(v, vs))
    ensures forall w :: w in InsertView(v, vs) <==> w == v || w in vs
  {
    if vs != [] && !Before(v, vs[0]) {
      InsertOrdered(v, vs[1..]);
      var rest := InsertView(v, vs[1..]);
      forall w ensures w in [vs[0]] + rest <==> w == v || w in vs {
        assert w in vs <==> w == vs[0] || w in vs[1..];
      }
      forall j | 0 <= j < |rest| ensures !Before(rest[j], vs[0]) {
        assert rest[j] in rest;
      }
    } else {
      forall j | 0 <= j < |vs| && Before(v, vs[0]) ensures !Before(vs[j], v) {
      }
    }
  }

  lemma {:induction false} SortOrdered(vs: seq<View>)
    ensures Ordered(SortViews(vs))
    ensures forall w :: w in SortViews(vs) <==> w in vs
  {
    if vs != [] {
      SortOrdered(vs[..|vs| - 1]);
      InsertOrdered(vs[|vs| - 1], SortViews(vs[..|vs| - 1]));
    }
  }

  lemma BeforeTotal(a: View, b: View)
    ensures a.id == b.id || Before(a, b) || Before(b, a)
    ensures !(Before(a, b) && Before(b, a))
  {
  }

  ghost predicate IsBest(ev: Evidence, cert: Cert, auth: Authority, v: View) {
    IsView(ev, cert, auth, v.id) && v == ViewOf(ev, cert, auth, v.id)
    && forall id :: IsView(ev, cert, auth, id) && id != v.id ==> Before(v, ViewOf(ev, cert, auth, id))
  }

  /** The selected view is the only one that beats every other: the greatest as_of, then
      the least view id; and there is one exactly when there is any view at all. */
  lemma SelectedIsBest(ev: Evidence, cert: Cert, auth: Authority)
    ensures SelectedView(ev, cert, auth) == None <==> forall id :: !IsView(ev, cert, auth, id)
    ensures forall v :: SelectedView(ev, cert, auth) == Some(v) <==> IsBest(ev, cert, auth, v)
  {
    var views := Views(ev, cert, auth);
    var sorted := SortViews(views);
    ViewsExact(ev, cert, auth);
    SortOrdered(views);
    if sorted == [] {
      forall id ensures !IsView(ev, cert, auth, id) {
        assert forall w :: w !in sorted;
      }
    } else {
      var v := sorted[0];
      assert v in sorted && v in views;
      forall id | IsView(ev, cert, auth, id) && id != v.id ensures Before(v, ViewOf(ev, cert, auth, id)) {
        var w :| w in views && w.id == id;
        assert w in sorted;
        BeforeTotal(v, w);
      }
      assert IsBest(ev, cert, auth, v);
      forall u | IsBest(ev, cert, auth, u) ensures u == v {
        BeforeTotal(u, v);
      }
    }
  }

  // ----- What the conclusion says -------------------------------------------------

  /** Timely, in profile, by the issuer's key. */
  predicate Acceptable(ev: Evidence, cert: Cert, auth: Authority, fp: Fp) {
    fp in ev.crls && ev.crls[fp].item.issuer == cert.issuer
    && ev.crls[fp].at <= ev.cutoff
    && !ev.crls[fp].item.unsupported
    && (ev.crls[fp].item.aki == None || auth.ski == None || ev.crls[fp].item.aki == auth.ski)
    && ev.crls[fp].item.sigAlgKnown && auth.key.inProfile && auth.key in ev.crls[fp].item.verifiesUnder
  }

  /** An acceptable CRL supports views of its own if it is complete, else as a delta; what is
      not acceptable but on time and not for another key counts as a defect. */
  lemma CrlsAreSorted(ev: Evidence, cert: Cert, auth: Authority, fp: Fp)
    ensures IsComplete(ev, cert, auth, fp) <==> Acceptable(ev, cert, auth, fp) && ev.crls[fp].item.baseNumber == None
    ensures IsDelta(ev, cert, auth, fp) <==> Acceptable(ev, cert, auth, fp) && ev.crls[fp].item.baseNumber.Some?
    ensures IsCrlFor(ev, cert, fp) && IsDefective(CrlFate(ev, auth, fp)) <==>
              && IsCrlFor(ev, cert, fp) && !Acceptable(ev, cert, auth, fp) && ev.crls[fp].at <= ev.cutoff
              && (ev.crls[fp].item.unsupported || ev.crls[fp].item.aki == None || auth.ski == None
                  || ev.crls[fp].item.aki == auth.ski)
  {
  }

  lemma {:induction false} SomeDelegate(ev: Evidence, ocsp: Ocsp, auth: Authority, rs: seq<Option<Cert>>)
    ensures FirstDelegate(ev, ocsp, auth, rs).Some? <==>
              exists i :: 0 <= i < |rs| && rs[i].Some? && DelegateOk(ev, ocsp, auth, rs[i].value)
  {
    hide DelegateOk;
    if rs != [] {
      SomeDelegate(ev, ocsp, auth, rs[1..]);
      assert forall i :: 0 < i < |rs| ==> rs[i] == rs[1..][i - 1];
    }
  }

  /** The single response that speaks for the certificate is the first that matches it. */
  lemma {:induction false} FirstMatchMeans(ev: Evidence, cert: Cert, auth: Authority, rs: seq<Single>)
    ensures match FirstMatch(ev, cert, auth, rs)
            case None => forall i :: 0 <= i < |rs| ==> !SingleMatches(ev, cert, auth, rs[i])
            case Some(s) =>
              exists i :: 0 <= i < |rs| && rs[i] == s && SingleMatches(ev, cert, auth, s)
                          && forall j :: 0 <= j < i ==> !SingleMatches(ev, cert, auth, rs[j])
  {
    hide SingleMatches;
    if rs != [] && !SingleMatches(ev, cert, auth, rs[0]) {
      var rest := rs[1..];
      FirstMatchMeans(ev, cert, auth, rest);
      var found := FirstMatch(ev, cert, auth, rest);
      if found.Some? {
        var i :| 0 <= i < |rest| && rest[i] == found.value
                 && forall j :: 0 <= j < i ==> !SingleMatches(ev, cert, auth, rest[j]);
        assert rs[i + 1] == found.value;
        assert forall j :: 0 < j < i + 1 ==> rs[j] == rest[j - 1];
      } else {
        assert forall i :: 0 < i < |rs| ==> rs[i] == rest[i - 1];
      }
    }
  }

  /** Signed by the issuer itself or by a certificate it delegated the signing to. */
  ghost predicate SignedFor(ev: Evidence, ocsp: Ocsp, auth: Authority) {
    ocsp.sigAlgKnown
    && ((auth.key.inProfile && ResponderMatches(ev, ocsp, auth.subject, auth.key) && auth.key in ocsp.verifiesUnder)
        || exists i :: 0 <= i < |ocsp.embedded| && ocsp.embedded[i].Some?
            && DelegateOk(ev, ocsp, auth, ocsp.embedded[i].value))
  }

  /** An OCSP response supports a view exactly when it is timely, in profile, has a response
      about the certificate that, if revoked, says when, and is signed by someone entitled to. */
  lemma OcspsAreSorted(ev: Evidence, cert: Cert, auth: Authority, fp: Fp)
    requires fp in ev.ocsps
    ensures var Received(ocsp, at) := ev.ocsps[fp];
            var single := FirstMatch(ev, cert, auth, ocsp.responses);
            IsResponse(ev, cert, auth, fp) <==>
              && at <= ev.cutoff && !ocsp.unsupported && single.Some? && SignedFor(ev, ocsp, auth)
              && (single.value.status == OcspRevoked ==> single.value.revocationTime.Some?)
  {
    var ocsp := ev.ocsps[fp].item;
    SomeDelegate(ev, ocsp, auth, ocsp.embedded);
  }

  // ----- Evidence that is out of reach changes nothing ---------------------------

  /** `ev` and `narrow` support the same views and the same defects for this inquiry. */
  ghost predicate SameInScope(ev: Evidence, narrow: Evidence, cert: Cert, auth: Authority) {
    && ev.signedAt == narrow.signedAt
    && (forall id :: IsView(narrow, cert, auth, id) <==> IsView(ev, cert, auth, id))
    && (forall id :: IsView(ev, cert, auth, id) ==> ViewOf(narrow, cert, auth, id) == ViewOf(ev, cert, auth, id))
    && (AnyDefective(narrow, cert, auth) <==> AnyDefective(ev, cert, auth))
  }

  lemma SameScopeSameConclusion(ev: Evidence, narrow: Evidence, cert: Cert, auth: Authority)
    requires SameInScope(ev, narrow, cert, auth)
    ensures SelectedView(narrow, cert, auth) == SelectedView(ev, cert, auth)
    ensures ConclusionOf(narrow, cert, auth) == ConclusionOf(ev, cert, auth)
  {
    SelectedIsBest(ev, cert, auth);
    SelectedIsBest(narrow, cert, auth);
    var s := SelectedView(ev, cert, auth);
    if s.Some? {
      assert IsBest(ev, cert, auth, s.value);
      assert IsBest(narrow, cert, auth, s.value);
    }
  }

  /** `narrow` is `ev` with some objects removed, each out of scope or received too late. */
  ghost predicate DropsOnlyIdle(ev: Evidence, narrow: Evidence, cert: Cert, auth: Authority) {
    && ev.signedAt == narrow.signedAt && ev.cutoff == narrow.cutoff && ev.hashes == narrow.hashes
    && (forall fp :: fp in narrow.crls ==> fp in ev.crls && narrow.crls[fp] == ev.crls[fp])
    && (forall fp :: fp in narrow.ocsps ==> fp in ev.ocsps && narrow.ocsps[fp] == ev.ocsps[fp])
    && (forall fp :: IsCrlFor(ev, cert, fp) && fp !in narrow.crls ==> ev.crls[fp].at > ev.cutoff)
    && (forall fp :: IsOcspFor(ev, cert, auth, fp) && fp !in narrow.ocsps ==> ev.ocsps[fp].at > ev.cutoff)
  }

  lemma IdleEvidenceIsIdle(ev: Evidence, narrow: Evidence, cert: Cert, auth: Authority)
    requires DropsOnlyIdle(ev, narrow, cert, auth)
    ensures SameInScope(ev, narrow, cert, auth)
  {
    NarrowCrls(ev, narrow, cert, auth);
    NarrowOcsps(ev, narrow, cert, auth);
    forall fp ensures BaseSet(narrow, cert, auth, fp) == BaseSet(ev, cert, auth, fp) {
    }
    DefectsCarry(ev, narrow, cert, auth);
  }

  lemma DefectsCarry(ev: Evidence, narrow: Evidence, cert: Cert, auth: Authority)
    requires DropsOnlyIdle(ev, narrow, cert, auth)
    requires forall fp :: BaseSet(narrow, cert, auth, fp) == BaseSet(ev, cert, auth, fp)
    ensures AnyDefective(narrow, cert, auth) <==> AnyDefective(ev, cert, auth)
  {
    NarrowCrls(ev, narrow, cert, auth);
    NarrowOcsps(ev, narrow, cert, auth);
    forall fp | IsCrlFor(ev, cert, fp) && IsDefective(CrlFate(ev, auth, fp))
      ensures IsCrlFor(narrow, cert, fp) && IsDefective(CrlFate(narrow, auth, fp)) {
    }
    forall fp | IsCrlFor(narrow, cert, fp) && IsDefective(CrlFate(narrow, auth, fp))
      ensures IsCrlFor(ev, cert, fp) && IsDefective(CrlFate(ev, auth, fp)) {
    }
    forall fp | IsOcspFor(ev, cert, auth, fp) && IsDefective(OcspFate(ev, cert, auth, fp))
      ensures IsOcspFor(narrow, cert, auth, fp) && IsDefective(OcspFate(narrow, cert, auth, fp)) {
    }
  }

  lemma NarrowCrls(ev: Evidence, narrow: Evidence, cert: Cert, auth: Authority)
    requires DropsOnlyIdle(ev, narrow, cert, auth)
    ensures forall fp :: IsComplete(narrow, cert, auth, fp) <==> IsComplete(ev, cert, auth, fp)
    ensures forall fp :: IsDelta(narrow, cert, auth, fp) <==> IsDelta(ev, cert, auth, fp)
    ensures forall b, d :: IsPair(narrow, cert, auth, b, d) <==> IsPair(ev, cert, auth, b, d)
  {
  }

  lemma {:induction false} DelegateSame(ev: Evidence, narrow: Evidence, ocsp: Ocsp, auth: Authority,
          rs: seq<Option<Cert>>)
    requires ev.hashes == narrow.hashes
    ensures FirstDelegate(narrow, ocsp, auth, rs) == FirstDelegate(ev, ocsp, auth, rs)
  {
    if rs != [] {
      DelegateSame(ev, narrow, ocsp, auth, rs[1..]);
    }
  }

  lemma {:induction false} FirstMatchSame(ev: Evidence, narrow: Evidence, cert: Cert, auth: Authority, rs: seq<Single>)
    requires ev.hashes == narrow.hashes
    ensures FirstMatch(narrow, cert, auth, rs) == FirstMatch(ev, cert, auth, rs)
  {
    if rs != [] {
      FirstMatchSame(ev, narrow, cert, auth, rs[1..]);
    }
  }

  lemma NarrowOcsps(ev: Evidence, narrow: Evidence, cert: Cert, auth: Authority)
    requires DropsOnlyIdle(ev, narrow, cert, auth)
    ensures forall fp :: IsOcspFor(narrow, cert, auth, fp) ==>
              IsOcspFor(ev, cert, auth, fp) && OcspFate(narrow, cert, auth, fp) == OcspFate(ev, cert, auth, fp)
    ensures forall fp :: IsOcspFor(ev, cert, auth, fp) && fp in narrow.ocsps ==> IsOcspFor(narrow, cert, auth, fp)
    ensures forall fp :: IsResponse(narrow, cert, auth, fp) <==> IsResponse(ev, cert, auth, fp)
  {
    forall fp | fp in narrow.ocsps
      ensures IsOcspFor(narrow, cert, auth, fp) <==> IsOcspFor(ev, cert, auth, fp)
      ensures IsOcspFor(ev, cert, auth, fp) ==> OcspFate(narrow, cert, auth, fp) == OcspFate(ev, cert, auth, fp)
    {
      var ocsp := ev.ocsps[fp].item;
      FirstMatchSame(ev, narrow, cert, auth, ocsp.responses);
      DelegateSame(ev, narrow, ocsp, auth, ocsp.embedded);
    }
  }

  /** The evidence received by the knowledge cutoff. */
  function Timely(ev: Evidence): Evidence {
    ev.(crls := map fp | fp in ev.crls && ev.crls[fp].at <= ev.cutoff :: ev.crls[fp],
        ocsps := map fp | fp in ev.ocsps && ev.ocsps[fp].at <= ev.cutoff :: ev.ocsps[fp])
  }

  /** Evidence received after the cutoff has no influence on the conclusion or the view. */
  lemma LateEvidenceCannotInterfere(ev: Evidence, cert: Cert, auth: Authority)
    ensures SelectedView(Timely(ev), cert, auth) == SelectedView(ev, cert, auth)
    ensures ConclusionOf(Timely(ev), cert, auth) == ConclusionOf(ev, cert, auth)
  {
    IdleEvidenceIsIdle(ev, Timely(ev), cert, auth);
    SameScopeSameConclusion(ev, Timely(ev), cert, auth);
  }

  /** The evidence among a set of objects. */
  function RestrictEvidence(ev: Evidence, keep: set<Fp>): Evidence {
    ev.(crls := map fp | fp in ev.crls && fp in keep :: ev.crls[fp],
        ocsps := map fp | fp in ev.ocsps && fp in keep :: ev.ocsps[fp])
  }

  /** An inquiry can be answered from the evidence it touched. */
  lemma RelevantEvidenceSuffices(ev: Evidence, keep: set<Fp>, cert: Cert, auth: Authority)
    requires Relevant(ev, cert, auth) <= keep
    ensures SelectedView(RestrictEvidence(ev, keep), cert, auth) == SelectedView(ev, cert, auth)
    ensures ConclusionOf(RestrictEvidence(ev, keep), cert, auth) == ConclusionOf(ev, cert, auth)
  {
    IdleEvidenceIsIdle(ev, RestrictEvidence(ev, keep), cert, auth);
    SameScopeSameConclusion(ev, RestrictEvidence(ev, keep), cert, auth);
  }

  lemma {:induction false} FirstMatchOfKey(ev: Evidence, cert: Cert, a: Authority, b: Authority, responses: seq<Single>)
    requires a.subject == b.subject && a.key == b.key
    ensures FirstMatch(ev, cert, a, responses) == FirstMatch(ev, cert, b, responses)
  {
    if responses != [] {
      FirstMatchOfKey(ev, cert, a, b, responses[1..]);
    }
  }

  /** What an inquiry looks at does not depend on the issuer's subject key identifier. */
  lemma RelevantOfKey(ev: Evidence, cert: Cert, a: Authority, b: Authority)
    requires a.subject == b.subject && a.key == b.key
    ensures Relevant(ev, cert, a) == Relevant(ev, cert, b)
  {
    forall fp | fp in ev.ocsps ensures IsOcspFor(ev, cert, a, fp) <==> IsOcspFor(ev, cert, b, fp) {
      FirstMatchOfKey(ev, cert, a, b, ev.ocsps[fp].item.responses);
    }
  }

  /** The documented rule for merging: same issuer, key and scope, the base's number is the one the
      delta names, and the delta's own number is greater. */
  predicate MayMerge(base: Crl, delta: Crl) {
    && base.issuer == delta.issuer && base.aki == delta.aki && base.idp == delta.idp
    && base.number.Some? && delta.baseNumber == base.number
    && delta.number.Some? && delta.number.value > base.number.value
  }

  /** On parsed CRLs there is a merged view of a base and a delta exactly when both are valid and
      the documented rule lets them merge, although the code would take a delta without a
      number: the parser leaves none in profile. */
  lemma MergesAreDocumented(ev: Evidence, cert: Cert, auth: Authority, base: Fp, delta: Fp)
    requires delta in ev.crls ==> AsParsed(ev.crls[delta].item)
    ensures (exists v :: v in Views(ev, cert, auth) && v.id == PairId(base, delta)) <==>
              IsComplete(ev, cert, auth, base) && IsDelta(ev, cert, auth, delta)
              && MayMerge(ev.crls[base].item, ev.crls[delta].item)
  {
    hide Views;
    ViewsExact(ev, cert, auth);
    assert (exists v :: v in Views(ev, cert, auth) && v.id == PairId(base, delta)) <==>
        IsView(ev, cert, auth, PairId(base, delta));
  }

  // ----- More knowledge -----------------------------------------------------------

  lemma LaterCutoffKeepsViews(ev: Evidence, later: Instant, cert: Cert, auth: Authority, id: ViewId)
    requires ev.cutoff <= later && IsView(ev, cert, auth, id)
    ensures var more := ev.(cutoff := later);
            IsView(more, cert, auth, id) && ViewOf(more, cert, auth, id) == ViewOf(ev, cert, auth, id)
  {
    if id.OcspId? {
      var more, ocsp := ev.(cutoff := later), ev.ocsps[id.ocsp].item;
      FirstMatchSame(ev, more, cert, auth, ocsp.responses);
      DelegateSame(ev, more, ocsp, auth, ocsp.embedded);
    }
  }

  /** Raising the cutoff never loses the view nor lowers its as_of. */
  lemma KnowledgeIsMonotone(ev: Evidence, later: Instant, cert: Cert, auth: Authority)
    requires ev.cutoff <= later
    ensures SelectedView(ev, cert, auth).Some? ==>
              var more := SelectedView(ev.(cutoff := later), cert, auth);
              more.Some? && SelectedView(ev, cert, auth).value.asOf <= more.value.asOf
  {
    var more := ev.(cutoff := later);
    var before, after := SelectedView(ev, cert, auth), SelectedView(more, cert, auth);
    SelectedIsBest(ev, cert, auth);
    SelectedIsBest(more, cert, auth);
    if before.Some? {
      assert IsBest(ev, cert, auth, before.value);
      LaterCutoffKeepsViews(ev, later, cert, auth, before.value.id);
      assert IsBest(more, cert, auth, after.value);
    }
  }

  // ----- What the cache key leaves out ----------------------------------------------

  /** The status cache is keyed by the issuer's key alone, but the answer also depends on
      its subject key identifier: two issuers that share name and key are interchangeable for a
      certificate, whatever the evidence, exactly when they agree on it. */
  lemma SameKeyInterchangeable(cert: Cert, a: Authority, b: Authority)
    requires a.subject == b.subject == cert.issuer && a.key == b.key
    ensures (forall ev :: ConclusionOf(ev, cert, a) == ConclusionOf(ev, cert, b)) <==> a.ski == b.ski
  {
    if a.ski != b.ski {
      if a.ski.Some? {
        SkiMatters(cert, a, b);
      } else {
        SkiMatters(cert, b, a);
      }
    }
  }

  /** One complete CRL whose AKI suits one issuer only. */
  function WitnessEvidence(a: Authority, aki: Token): Evidence {
    var crl := Crl(a.subject, Some(aki), None, None, None, 0, None, map[], true, {a.key}, false);
    Evidence(map[0 := Received(crl, 0)], map[], 0, 0, IdHashes((_, _) => 0, (_, _) => 0))
  }

  lemma SkiMatters(cert: Cert, a: Authority, b: Authority)
    requires a.subject == b.subject == cert.issuer && a.key == b.key
    requires a.ski.Some? && a.ski != b.ski
    ensures exists ev :: ConclusionOf(ev, cert, a) != ConclusionOf(ev, cert, b)
  {
    var aki := if b.ski.Some? then a.ski.value else a.ski.value + 1;
    var ev := WitnessEvidence(a, aki);
    var suited, other := if b.ski.Some? then a else b, if b.ski.Some? then b else a;
    WitnessConclusions(ev, cert, suited, other, aki);
    assert ConclusionOf(ev, cert, a) != ConclusionOf(ev, cert, b);
  }

  /** The CRL counts for the issuer it suits, as a view or as a defect; for the other it is
      another key's. */
  lemma WitnessConclusions(ev: Evidence, cert: Cert, suited: Authority, other: Authority, aki: Token)
    requires ev == WitnessEvidence(suited, aki) && cert.issuer == suited.subject
    requires suited.ski == None || suited.ski == Some(aki)
    requires other.ski.Some? && other.ski != Some(aki)
    ensures ConclusionOf(ev, cert, suited).status != UnknownStatus
    ensures ConclusionOf(ev, cert, other).status == UnknownStatus
  {
    if suited.key.inProfile {
      WitnessGood(ev, cert, suited, aki);
    } else {
      WitnessMalformed(ev, cert, suited, aki);
    }
    WitnessUnknown(ev, cert, other);
  }

  lemma WitnessMalformed(ev: Evidence, cert: Cert, suited: Authority, aki: Token)
    requires !suited.key.inProfile && ev == WitnessEvidence(suited, aki) && cert.issuer == suited.subject
    requires suited.ski == None || suited.ski == Some(aki)
    ensures ConclusionOf(ev, cert, suited).status == MalformedStatus
  {
    assert CrlFate(ev, suited, 0) == BadSignature;
    assert IsCrlFor(ev, cert, 0);
    forall id ensures !IsView(ev, cert, suited, id) {
    }
    SelectedIsBest(ev, cert, suited);
  }

  lemma WitnessUnknown(ev: Evidence, cert: Cert, other: Authority)
    requires ev.crls.Keys <= {0} && ev.ocsps == map[]
    requires 0 in ev.crls ==> CrlFate(ev, other, 0) == WrongKey
    ensures ConclusionOf(ev, cert, other).status == UnknownStatus
  {
    hide IsView, AnyDefective, SelectedView;
    OtherKeysCrl(ev, cert, other);
    SelectedIsBest(ev, cert, other);
  }

  lemma OtherKeysCrl(ev: Evidence, cert: Cert, other: Authority)
    requires ev.crls.Keys <= {0} && ev.ocsps == map[]
    requires 0 in ev.crls ==> CrlFate(ev, other, 0) == WrongKey
    ensures !AnyDefective(ev, cert, other) && forall id :: !IsView(ev, cert, other, id)
  {
    hide CrlFate;
    forall fp ensures IsCrlFor(ev, cert, fp) ==> fp == 0 {
    }
    forall id ensures !IsView(ev, cert, other, id) {
    }
  }

  lemma WitnessGood(ev: Evidence, cert: Cert, good: Authority, aki: Token)
    requires good.key.inProfile && ev == WitnessEvidence(good, aki) && cert.issuer == good.subject
    requires good.ski == None || good.ski == Some(aki)
    ensures ConclusionOf(ev, cert, good).status == GoodStatus
  {
    SelectedIsBest(ev, cert, good);
    assert CrlFate(ev, good, 0) == CompleteCrl;
    assert IsView(ev, cert, good, CrlId(0));
    var s := SelectedView(ev, cert, good).value;
    assert IsBest(ev, cert, good, s);
    assert s.id == CrlId(0);
  }
}
