/** The stateful evaluator (app/revocation.py, `RevocationEvaluator`): its loops compute
    the views, and its fields are the ledger, as the functions of the evidence say. */
module RevocationEvaluators {
  import opened Basics
  import opened Certificates
  import opened Revocation
  import opened RevocationLedger
  import opened RevocationViews
  import opened RevocationAccounting

  /** The base's entries with the delta's applied one by one. */
  method MergeEntries(base: Entries, delta: Entries) returns (merged: Entries)
    ensures merged == Merged(base, delta)
  {
    merged := base;
    var todo := delta.Keys;
    while todo != {}
      invariant todo <= delta.Keys
      invariant forall s :: s in delta && s !in todo ==>
                  (s in merged <==> delta[s].reason != Some(RemoveFromCrl)) && (s in merged ==> merged[s] == delta[s])
      invariant forall s :: s !in delta || s in todo ==>
                  (s in merged <==> s in base) && (s in merged ==> merged[s] == base[s])
    {
      var serial :| serial in todo;
      if delta[serial].reason == Some(RemoveFromCrl) {
        merged := merged - {serial};
      } else {
        merged := merged[serial := delta[serial]];
      }
      todo := todo - {serial};
    }
  }

  /** The OCSP responses the loop stops at: those about this certificate. */
  ghost function OcspSeen(ev: Evidence, cert: Cert, auth: Authority, fp: Fp): set<Fp> {
    if IsOcspFor(ev, cert, auth, fp) then {fp} else {}
  }

  ghost function OcspsSeen(ev: Evidence, cert: Cert, auth: Authority, fps: seq<Fp>, n: nat): set<Fp>
    requires n <= |fps|
  {
    if n == 0 then {} else OcspsSeen(ev, cert, auth, fps, n - 1) + OcspSeen(ev, cert, auth, fps[n - 1])
  }

  lemma {:induction false} OcspsSeenMembers(ev: Evidence, cert: Cert, auth: Authority, fps: seq<Fp>, n: nat)
    requires n <= |fps|
    ensures forall fp :: fp in OcspsSeen(ev, cert, auth, fps, n) <==> fp in fps[..n] && IsOcspFor(ev, cert, auth, fp)
  {
    if n > 0 {
      OcspsSeenMembers(ev, cert, auth, fps, n - 1);
      assert fps[..n] == fps[..n - 1] + [fps[n - 1]];
    }
  }

  class RevocationEvaluator {
    const ev: Evidence
    /** CRL fingerprints by issuer name, and OCSP fingerprints, in no particular order. */
    const crlIndex: map<Token, seq<Fp>>
    const ocspFps: seq<Fp>

    var cache: map<(Fp, Key), Outcome>
    var outcomes: map<Fp, Outcome>
    var accounting: map<Fp, Disposition>
    var touched: set<Fp>

    constructor (ev: Evidence, crlIndex: map<Token, seq<Fp>>, ocspFps: seq<Fp>)
      ensures this.ev == ev && this.crlIndex == crlIndex && this.ocspFps == ocspFps
      ensures Books() == BLANK
    {
      this.ev := ev;
      this.crlIndex := crlIndex;
      this.ocspFps := ocspFps;
      cache, outcomes, accounting, touched := map[], map[], map[], {};
    }

    /** The indexes list exactly the evidence. */
    ghost predicate Indexed() {
      && (forall t, fp :: t in crlIndex && fp in crlIndex[t] <==> fp in ev.crls && ev.crls[fp].item.issuer == t)
      && (forall fp :: fp in ocspFps <==> fp in ev.ocsps)
    }

    ghost function Books(): Ledger
      reads this
    {
      Ledger(cache, outcomes, accounting, touched)
    }

    ghost function Pages(evaluated: map<Fp, Disposition>): Book
      reads this
    {
      Book(accounting, evaluated)
    }

    /** The books and the count of defects are as `log` leaves them. */
    ghost predicate InStep(start: Book, log: Log, evaluated: map<Fp, Disposition>, defective: nat)
      reads this
    {
      Pages(evaluated) == NoteAll(start, log) && defective == DefectsIn(log)
    }

    /** `status`: the cached outcome for the certificate and the issuer's key, else a new one. */
    method Status(cert: Cert, issuer: Cert) returns (outcome: Outcome)
      requires Indexed()
      modifies this
      ensures Books() == Asked(ev, old(Books()), cert, issuer)
      ensures (cert.fp, issuer.key) in cache && outcome == cache[(cert.fp, issuer.key)]
    {
      var key := (cert.fp, issuer.key);
      if key in cache {
        return cache[key];
      }
      outcome := Compute(cert, issuer);
      cache := cache[key := outcome];
      outcomes := outcomes[cert.fp := outcome];
    }

    /** `exclude` inside `_compute`. */
    method Exclude(fp: Fp, why: Fate, evaluated: map<Fp, Disposition>, defective: nat)
      returns (evaluated': map<Fp, Disposition>, defective': nat)
      modifies this`accounting
      ensures Pages(evaluated') == Note(old(Pages(evaluated)), Event(fp, Excluded(why)))
      ensures defective' == defective + Defects(Excluded(why))
    {
      defective' := if IsDefective(why) then defective + 1 else defective;
      accounting := Amend(accounting, Event(fp, Excluded(why)));
      evaluated' := if fp in evaluated then evaluated else evaluated[fp := accounting[fp]];
    }

    /** One turn of the CRL loop: excluded for the first reason that applies, or kept as a
        delta, or as a complete CRL with a view of its own. */
    method SiftCrl(cert: Cert, auth: Authority, fp: Fp, evaluated0: map<Fp, Disposition>, defective0: nat,
                   ghost start: Book, ghost log: Log)
      returns (complete: seq<Fp>, delta: seq<Fp>, views: seq<View>, evaluated: map<Fp, Disposition>, defective: nat)
      requires IsCrlFor(ev, cert, fp)
      requires InStep(start, log, evaluated0, defective0)
      modifies this`accounting, this`touched
      ensures complete == if IsComplete(ev, cert, auth, fp) then [fp] else []
      ensures delta == if IsDelta(ev, cert, auth, fp) then [fp] else []
      ensures views == if IsComplete(ev, cert, auth, fp) then [ViewOf(ev, cert, auth, CrlId(fp))] else []
      ensures InStep(start, CrlEntry(ev, auth, log, fp), evaluated, defective)
      ensures touched == old(touched) + {fp}
    {
      complete, delta, views, evaluated, defective := [], [], [], evaluated0, defective0;
      touched := touched + {fp};
      var Received(crl, at) := ev.crls[fp];
      var fate;
      if at > ev.cutoff {
        fate := Late;
      } else if crl.unsupported {
        fate := OutOfProfile;
      } else if crl.aki.Some? && auth.ski.Some? && crl.aki != auth.ski {
        fate := WrongKey;
      } else if !(crl.sigAlgKnown && auth.key.inProfile && auth.key in crl.verifiesUnder) {
        fate := BadSignature;
      } else if crl.baseNumber.Some? {
        delta := [fp];
        return;
      } else {
        complete := [fp];
        views := [View(CrlId(fp), crl.thisUpdate, crl.nextUpdate, CrlBody(crl.entries), [fp])];
        return;
      }
      evaluated, defective := Exclude(fp, fate, evaluated, defective);
    }

    method ScanCrls(cert: Cert, auth: Authority, ghost start: Book)
      returns (completes: seq<Fp>, deltas: seq<Fp>, views: seq<View>, evaluated: map<Fp, Disposition>, defective: nat)
      requires Indexed() && start == Pages(map[])
      modifies this`accounting, this`touched
      ensures forall fp :: fp in completes <==> IsComplete(ev, cert, auth, fp)
      ensures deltas == Deltas(ev, cert, auth)
      ensures views == CrlViews(ev, cert, auth, CrlList(ev, cert), |CrlList(ev, cert)|)
      ensures InStep(start, CrlLog(ev, auth, Empty, CrlList(ev, cert), |CrlList(ev, cert)|), evaluated, defective)
      ensures touched == old(touched) + CrlSet(ev, cert)
    {
      var indexed := if cert.issuer in crlIndex then crlIndex[cert.issuer] else [];
      var fps := Ascending(Elements(indexed));
      assert Elements(indexed) == CrlSet(ev, cert);
      completes, deltas, views, evaluated, defective := ScanCrlList(cert, auth, fps, start);
      assert Elements(fps) == CrlSet(ev, cert);
    }

    method ScanCrlList(cert: Cert, auth: Authority, fps: seq<Fp>, ghost start: Book)
      returns (completes: seq<Fp>, deltas: seq<Fp>, views: seq<View>, evaluated: map<Fp, Disposition>, defective: nat)
      requires start == Pages(map[]) && forall fp :: fp in fps ==> IsCrlFor(ev, cert, fp)
      modifies this`accounting, this`touched
      ensures forall fp :: fp in completes <==> fp in fps && IsComplete(ev, cert, auth, fp)
      ensures deltas == DeltaList(ev, cert, auth, fps, |fps|)
      ensures views == CrlViews(ev, cert, auth, fps, |fps|)
      ensures InStep(start, CrlLog(ev, auth, Empty, fps, |fps|), evaluated, defective)
      ensures touched == old(touched) + Elements(fps)
    {
      hide IsComplete, IsDelta, ViewOf, CrlEntry;
      completes, deltas, views, evaluated, defective := [], [], [], map[], 0;
      for i := 0 to |fps|
        invariant forall fp :: fp in completes <==> fp in fps[..i] && IsComplete(ev, cert, auth, fp)
        invariant deltas == DeltaList(ev, cert, auth, fps, i)
        invariant views == CrlViews(ev, cert, auth, fps, i)
        invariant InStep(start, CrlLog(ev, auth, Empty, fps, i), evaluated, defective)
        invariant touched == old(touched) + Elements(fps[..i])
      {
        assert fps[..i + 1] == fps[..i] + [fps[i]];
        var complete, delta, view;
        complete, delta, view, evaluated, defective :=
          SiftCrl(cert, auth, fps[i], evaluated, defective, start, CrlLog(ev, auth, Empty, fps, i));
        completes, deltas, views := completes + complete, deltas + delta, views + view;
      }
      assert fps[..|fps|] == fps;
    }

    /** The complete CRLs that one delta can be merged with. */
    method FindBases(cert: Cert, auth: Authority, completes: seq<Fp>, delta: Fp) returns (bases: seq<Fp>)
      requires forall fp :: fp in completes <==> IsComplete(ev, cert, auth, fp)
      requires IsDelta(ev, cert, auth, delta)
      ensures bases == BaseList(ev, cert, auth, delta)
    {
      var found := [];
      for i := 0 to |completes|
        invariant forall fp :: fp in found <==> fp in completes[..i] && IsPair(ev, cert, auth, fp, delta)
      {
        assert completes[..i + 1] == completes[..i] + [completes[i]];
        assert completes[i] in completes;
        if CompatibleCrls(ev.crls[completes[i]].item, ev.crls[delta].item) {
          found := found + [completes[i]];
        }
      }
      assert completes[..|completes|] == completes;
      assert Elements(found) == BaseSet(ev, cert, auth, delta);
      bases := Ascending(Elements(found));
    }

    method MergeOne(cert: Cert, auth: Authority, delta: Fp, bases: seq<Fp>) returns (views: seq<View>)
      requires forall fp :: fp in bases ==> IsPair(ev, cert, auth, fp, delta)
      ensures views == MergedViews(ev, cert, auth, delta, bases, |bases|)
    {
      views := [];
      for i := 0 to |bases|
        invariant views == MergedViews(ev, cert, auth, delta, bases, i)
      {
        assert IsPair(ev, cert, auth, bases[i], delta);
        var b, d := ev.crls[bases[i]].item, ev.crls[delta].item;
        var merged := MergeEntries(b.entries, d.entries);
        views := views + [View(PairId(bases[i], delta), d.thisUpdate, d.nextUpdate, CrlBody(merged),
            [bases[i], delta])];
      }
    }

    method MergeDeltas(cert: Cert, auth: Authority, completes: seq<Fp>, deltas: seq<Fp>,
                       evaluated0: map<Fp, Disposition>, defective0: nat, ghost start: Book, ghost log: Log)
      returns (views: seq<View>, evaluated: map<Fp, Disposition>, defective: nat)
      requires forall fp :: fp in completes <==> IsComplete(ev, cert, auth, fp)
      requires forall fp :: fp in deltas ==> IsDelta(ev, cert, auth, fp)
      requires InStep(start, log, evaluated0, defective0)
      modifies this`accounting
      ensures views == PairViews(ev, cert, auth, deltas, |deltas|)
      ensures InStep(start, DeltaLog(ev, cert, auth, log, deltas, |deltas|), evaluated, defective)
    {
      hide IsComplete, IsDelta, MergedWith, InStep, DeltaEntry;
      views, evaluated, defective := [], evaluated0, defective0;
      for i := 0 to |deltas|
        invariant views == PairViews(ev, cert, auth, deltas, i)
        invariant InStep(start, DeltaLog(ev, cert, auth, log, deltas, i), evaluated, defective)
      {
        var more;
        more, evaluated, defective := MergeDelta(cert, auth, completes, deltas[i], evaluated, defective,
                                                 start, DeltaLog(ev, cert, auth, log, deltas, i));
        views := views + more;
      }
    }

    /** One turn of the delta loop: excluded for want of a base, or merged with each base. */
    method MergeDelta(cert: Cert, auth: Authority, completes: seq<Fp>, delta: Fp,
                      evaluated0: map<Fp, Disposition>, defective0: nat, ghost start: Book, ghost log: Log)
      returns (views: seq<View>, evaluated: map<Fp, Disposition>, defective: nat)
      requires forall fp :: fp in completes <==> IsComplete(ev, cert, auth, fp)
      requires IsDelta(ev, cert, auth, delta)
      requires InStep(start, log, evaluated0, defective0)
      modifies this`accounting
      ensures views == MergedWith(ev, cert, auth, delta)
      ensures InStep(start, DeltaEntry(ev, cert, auth, log, delta), evaluated, defective)
    {
      views, evaluated, defective := [], evaluated0, defective0;
      var bases := FindBases(cert, auth, completes, delta);
      if bases == [] {
        evaluated, defective := Exclude(delta, NoBase, evaluated, defective);
      } else {
        views := MergeOne(cert, auth, delta, bases);
      }
    }

    /** The first single response about this certificate, looked for in the index data and
        again in the parsed response. */
    method FindSingle(cert: Cert, auth: Authority, responses: seq<Single>) returns (single: Option<Single>)
      ensures single == FirstMatch(ev, cert, auth, responses)
    {
      var i := 0;
      while i < |responses|
        invariant 0 <= i <= |responses|
        invariant FirstMatch(ev, cert, auth, responses) == FirstMatch(ev, cert, auth, responses[i..])
      {
        if SingleMatches(ev, cert, auth, responses[i]) {
          return Some(responses[i]);
        }
        i := i + 1;
      }
      single := None;
    }

    /** One turn of the OCSP loop: skipped, excluded for the first reason that applies, or a view. */
    method SiftOcsp(cert: Cert, auth: Authority, fp: Fp, evaluated0: map<Fp, Disposition>, defective0: nat,
                    ghost start: Book, ghost log: Log)
      returns (views: seq<View>, evaluated: map<Fp, Disposition>, defective: nat)
      requires fp in ev.ocsps
      requires InStep(start, log, evaluated0, defective0)
      modifies this`accounting, this`touched
      ensures views == if IsResponse(ev, cert, auth, fp) then [ViewOf(ev, cert, auth, OcspId(fp))] else []
      ensures InStep(start, OcspEntry(ev, cert, auth, log, fp), evaluated, defective)
      ensures touched == old(touched) + OcspSeen(ev, cert, auth, fp)
    {
      views, evaluated, defective := [], evaluated0, defective0;
      var Received(ocsp, at) := ev.ocsps[fp];
      var matched := FindSingle(cert, auth, ocsp.responses);
      if matched == None {
        return;
      }
      touched := touched + {fp};
      var fate;
      if at > ev.cutoff {
        fate := Late;
      } else if ocsp.unsupported {
        fate := OutOfProfile;
      } else {
        // The parsed responses are those the index was made from, so a match is found again.
        var single := FindSingle(cert, auth, ocsp.responses);
        var responder := VerifyAuthorization(ocsp, auth);
        if responder == None {
          fate := Unauthorized;
        } else if single.value.status == OcspRevoked && single.value.revocationTime == None {
          fate := RevokedWithoutTime;
        } else {
          views := [View(OcspId(fp), single.value.thisUpdate, single.value.nextUpdate,
                         OcspBody(single.value, responder.value), [fp])];
          return;
        }
      }
      evaluated, defective := Exclude(fp, fate, evaluated, defective);
    }

    method ScanOcsps(cert: Cert, auth: Authority, evaluated0: map<Fp, Disposition>, defective0: nat,
                     ghost start: Book, ghost log: Log)
      returns (views: seq<View>, evaluated: map<Fp, Disposition>, defective: nat)
      requires Indexed()
      requires InStep(start, log, evaluated0, defective0)
      modifies this`accounting, this`touched
      ensures views == OcspViews(ev, cert, auth, OcspList(ev), |OcspList(ev)|)
      ensures InStep(start, OcspLog(ev, cert, auth, log, OcspList(ev), |OcspList(ev)|), evaluated, defective)
      ensures touched == old(touched) + OcspSet(ev, cert, auth)
    {
      assert Elements(ocspFps) == ev.ocsps.Keys;
      var fps := Ascending(Elements(ocspFps));
      views, evaluated, defective := ScanOcspList(cert, auth, fps, evaluated0, defective0, start, log);
      OcspsSeenMembers(ev, cert, auth, fps, |fps|);
      assert OcspsSeen(ev, cert, auth, fps, |fps|) == OcspSet(ev, cert, auth);
    }

    method ScanOcspList(cert: Cert, auth: Authority, fps: seq<Fp>, evaluated0: map<Fp, Disposition>, defective0: nat,
                        ghost start: Book, ghost log: Log)
      returns (views: seq<View>, evaluated: map<Fp, Disposition>, defective: nat)
      requires forall fp :: fp in fps ==> fp in ev.ocsps
      requires InStep(start, log, evaluated0, defective0)
      modifies this`accounting, this`touched
      ensures views == OcspViews(ev, cert, auth, fps, |fps|)
      ensures InStep(start, OcspLog(ev, cert, auth, log, fps, |fps|), evaluated, defective)
      ensures touched == old(touched) + OcspsSeen(ev, cert, auth, fps, |fps|)
    {
      views, evaluated, defective := [], evaluated0, defective0;
      for i := 0 to |fps|
        invariant views == OcspViews(ev, cert, auth, fps, i)
        invariant InStep(start, OcspLog(ev, cert, auth, log, fps, i), evaluated, defective)
        invariant touched == old(touched) + OcspsSeen(ev, cert, auth, fps, i)
      {
        var more;
        more, evaluated, defective :=
          SiftOcsp(cert, auth, fps[i], evaluated, defective, start, OcspLog(ev, cert, auth, log, fps, i));
        views := views + more;
      }
    }

    /** `_verify_ocsp_authorization`. */
    method VerifyAuthorization(ocsp: Ocsp, auth: Authority) returns (responder: Option<Responder>)
      ensures responder == Authorized(ev, ocsp, auth)
    {
      if !ocsp.sigAlgKnown {
        return None;
      }
      if auth.key.inProfile && ResponderMatches(ev, ocsp, auth.subject, auth.key) {
        if auth.key in ocsp.verifiesUnder {
          return Some(Direct);
        }
      }
      var i := 0;
      while i < |ocsp.embedded|
        invariant 0 <= i <= |ocsp.embedded|
        invariant FirstDelegate(ev, ocsp, auth, ocsp.embedded) == FirstDelegate(ev, ocsp, auth, ocsp.embedded[i..])
      {
        if ocsp.embedded[i].Some? && DelegateOk(ev, ocsp, auth, ocsp.embedded[i].value) {
          return Some(Delegated(ocsp.embedded[i].value.fp));
        }
        i := i + 1;
      }
      responder := None;
    }

    /** The selected view's evidence is marked used, everyone else's not selected. */
    method Select(sorted: seq<View>, evaluated0: map<Fp, Disposition>, ghost start: Book, ghost log: Log)
      returns (evaluated: map<Fp, Disposition>)
      requires sorted != [] && Pages(evaluated0) == NoteAll(start, log)
      modifies this`accounting
      ensures Pages(evaluated) == NoteAll(start, SelectionLog(log, sorted, |sorted|))
    {
      evaluated := MarkEvidence(sorted[0].evidence, Used, evaluated0, start, log);
      for i := 1 to |sorted|
        invariant Pages(evaluated) == NoteAll(start, SelectionLog(log, sorted, i))
      {
        evaluated := MarkEvidence(sorted[i].evidence, NotSelected, evaluated, start, SelectionLog(log, sorted, i));
      }
    }

    method MarkEvidence(fps: seq<Fp>, d: Disposition, evaluated0: map<Fp, Disposition>, ghost start: Book,
            ghost log: Log)
      returns (evaluated: map<Fp, Disposition>)
      requires Pages(evaluated0) == NoteAll(start, log)
      modifies this`accounting
      ensures Pages(evaluated) == NoteAll(start, MarkLog(log, fps, d, |fps|))
    {
      evaluated := evaluated0;
      for i := 0 to |fps|
        invariant Pages(evaluated) == NoteAll(start, MarkLog(log, fps, d, i))
      {
        var e := Event(fps[i], d);
        accounting := Amend(accounting, e);
        if d == Used || e.fp !in evaluated {
          evaluated := evaluated[e.fp := accounting[e.fp]];
        }
      }
    }

    /** `_compute`. */
    method Compute(cert: Cert, issuer: Cert) returns (outcome: Outcome)
      requires Indexed()
      modifies this`accounting, this`touched
      ensures outcome == Computed(ev, old(accounting), cert, issuer)
      ensures accounting == NoteAll(old(Pages(map[])), FullLog(ev, cert, AuthorityOf(issuer))).accounting
      ensures touched == old(touched) + Relevant(ev, cert, AuthorityOf(issuer))
    {
      var auth := AuthorityOf(issuer);
      ghost var start := Pages(map[]);
      var views, evaluated, defective := Scan(cert, auth);
      var sorted := SortViews(views);
      if sorted == [] {
        outcome := Outcome(cert.fp, issuer.fp,
                           Conclusion(if defective > 0 then MalformedStatus else UnknownStatus, None, None),
                           None, evaluated);
      } else {
        evaluated := Select(sorted, evaluated, start, ScanLog(ev, cert, auth));
        outcome := Outcome(cert.fp, issuer.fp, Conclude(sorted[0], cert.serial, ev.signedAt), Some(sorted[0]),
            evaluated);
      }
    }

    /** The three scans of `_compute`. */
    method Scan(cert: Cert, auth: Authority)
      returns (views: seq<View>, evaluated: map<Fp, Disposition>, defective: nat)
      requires Indexed()
      modifies this`accounting, this`touched
      ensures views == Views(ev, cert, auth)
      ensures Pages(evaluated) == NoteAll(old(Pages(map[])), ScanLog(ev, cert, auth))
      ensures defective > 0 <==> AnyDefective(ev, cert, auth)
      ensures touched == old(touched) + Relevant(ev, cert, auth)
    {
      ghost var start := Pages(map[]);
      DefectsMeanDefective(ev, cert, auth);
      DeltaListMembers(ev, cert, auth, CrlList(ev, cert), |CrlList(ev, cert)|);
      ghost var a := CrlLog(ev, auth, Empty, CrlList(ev, cert), |CrlList(ev, cert)|);
      ghost var b := DeltaLog(ev, cert, auth, a, Deltas(ev, cert, auth), |Deltas(ev, cert, auth)|);
      var completes, deltas;
      completes, deltas, views, evaluated, defective := ScanCrls(cert, auth, start);
      var more;
      more, evaluated, defective := MergeDeltas(cert, auth, completes, deltas, evaluated, defective, start, a);
      views := views + more;
      more, evaluated, defective := ScanOcsps(cert, auth, evaluated, defective, start, b);
      views := views + more;
    }
  }
}
