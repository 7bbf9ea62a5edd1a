/** The accounting of evidence over any sequence of status calls. */
module RevocationAccounting {
  import opened Basics
  import opened Certificates
  import opened Revocation
  import opened RevocationViews
  import opened RevocationLedger

  /** Everything an inquiry writes down, told apart by what it says. */
  lemma LogContents(ev: Evidence, cert: Cert, auth: Authority, e: Event)
    ensures Noted(ScanLog(ev, cert, auth), e) <==>
              || (IsCrlFor(ev, cert, e.fp) && e.disposition == Excluded(CrlFate(ev, auth, e.fp))
                  && !e.disposition.why.CompleteCrl? && !e.disposition.why.DeltaCrl?)
              || (IsDelta(ev, cert, auth, e.fp) && BaseSet(ev, cert, auth, e.fp) == {}
                  && e.disposition == Excluded(NoBase))
              || (IsOcspFor(ev, cert, auth, e.fp) && !IsResponse(ev, cert, auth, e.fp)
                  && e.disposition == Excluded(OcspFate(ev, cert, auth, e.fp)))
  {
    var crls, deltas, ocsps := CrlList(ev, cert), Deltas(ev, cert, auth), OcspList(ev);
    var a := CrlLog(ev, auth, Empty, crls, |crls|);
    var b := DeltaLog(ev, cert, auth, a, deltas, |deltas|);
    CrlNoted(ev, auth, Empty, crls, |crls|, e);
    DeltaNoted(ev, cert, auth, a, deltas, |deltas|, e);
    OcspNoted(ev, cert, auth, b, ocsps, |ocsps|, e);
    DeltaListMembers(ev, cert, auth, crls, |crls|);
    assert crls[..|crls|] == crls && deltas[..|deltas|] == deltas && ocsps[..|ocsps|] == ocsps;
    BaseListEmpty(ev, cert, auth, e.fp);
  }

  lemma BaseListEmpty(ev: Evidence, cert: Cert, auth: Authority, delta: Fp)
    ensures BaseList(ev, cert, auth, delta) == [] <==> BaseSet(ev, cert, auth, delta) == {}
  {
    if x :| x in BaseSet(ev, cert, auth, delta) {
      assert x in BaseList(ev, cert, auth, delta);
    }
  }

  lemma SelectionContents(ev: Evidence, cert: Cert, auth: Authority, e: Event)
    ensures Noted(FullLog(ev, cert, auth), e) <==>
              || Noted(ScanLog(ev, cert, auth), e)
              || (e.disposition == Used && SelectedView(ev, cert, auth).Some?
                  && e.fp in SelectedView(ev, cert, auth).value.evidence)
              || (e.disposition == NotSelected
                  && exists i :: 1 <= i < |SortViews(Views(ev, cert, auth))|
                                 && e.fp in SortViews(Views(ev, cert, auth))[i].evidence)
  {
    var views := SortViews(Views(ev, cert, auth));
    SelectionNoted(ScanLog(ev, cert, auth), views, |views|, e);
  }

  /** Every object that is looked at is written down, and no other. */
  lemma LogCoversRelevant(ev: Evidence, cert: Cert, auth: Authority, fp: Fp)
    ensures NotedFor(FullLog(ev, cert, auth), fp) <==> fp in Relevant(ev, cert, auth)
  {
    if fp in Relevant(ev, cert, auth) {
      RelevantIsNoted(ev, cert, auth, fp);
    }
    if NotedFor(FullLog(ev, cert, auth), fp) {
      var e :| Noted(FullLog(ev, cert, auth), e) && e.fp == fp;
      NotedIsRelevant(ev, cert, auth, e);
    }
  }

  lemma NotedIsRelevant(ev: Evidence, cert: Cert, auth: Authority, e: Event)
    requires Noted(FullLog(ev, cert, auth), e)
    ensures e.fp in Relevant(ev, cert, auth)
  {
    LogContents(ev, cert, auth, e);
    SelectionContents(ev, cert, auth, e);
    if !Noted(ScanLog(ev, cert, auth), e) {
      var views := SortViews(Views(ev, cert, auth));
      var i :| 0 <= i < |views| && e.fp in views[i].evidence;
      SortOrdered(Views(ev, cert, auth));
      assert views[i] in Views(ev, cert, auth);
      ViewEvidenceIsRelevant(ev, cert, auth, views[i], e.fp);
    }
  }

  lemma ViewEvidenceIsRelevant(ev: Evidence, cert: Cert, auth: Authority, v: View, fp: Fp)
    requires v in Views(ev, cert, auth) && fp in v.evidence
    ensures fp in Relevant(ev, cert, auth)
  {
    ViewsExact(ev, cert, auth);
    var i :| 0 <= i < |Views(ev, cert, auth)| && Views(ev, cert, auth)[i] == v;
    EvidenceInScope(ev, cert, auth, v.id, fp);
  }

  lemma EvidenceInScope(ev: Evidence, cert: Cert, auth: Authority, id: ViewId, fp: Fp)
    requires IsView(ev, cert, auth, id) && fp in ViewOf(ev, cert, auth, id).evidence
    ensures fp in Relevant(ev, cert, auth)
  {
  }

  lemma SortedViewIsNoted(ev: Evidence, cert: Cert, auth: Authority, i: nat, fp: Fp)
    requires i < |SortViews(Views(ev, cert, auth))| && fp in SortViews(Views(ev, cert, auth))[i].evidence
    ensures NotedFor(FullLog(ev, cert, auth), fp)
  {
    if i == 0 {
      SelectionContents(ev, cert, auth, Event(fp, Used));
      assert Noted(FullLog(ev, cert, auth), Event(fp, Used));
    } else {
      SelectionContents(ev, cert, auth, Event(fp, NotSelected));
      assert Noted(FullLog(ev, cert, auth), Event(fp, NotSelected));
    }
  }

  lemma ViewIsNoted(ev: Evidence, cert: Cert, auth: Authority, id: ViewId, fp: Fp)
    requires IsView(ev, cert, auth, id) && fp in ViewOf(ev, cert, auth, id).evidence
    ensures NotedFor(FullLog(ev, cert, auth), fp)
  {
    var views := Views(ev, cert, auth);
    ViewsExact(ev, cert, auth);
    SortOrdered(views);
    var v: View :| v in views && v.id == id;
    var k :| 0 <= k < |views| && views[k] == v;
    assert v in SortViews(views);
    var i :| 0 <= i < |SortViews(views)| && SortViews(views)[i] == v;
    SortedViewIsNoted(ev, cert, auth, i, fp);
  }

  lemma RelevantIsNoted(ev: Evidence, cert: Cert, auth: Authority, fp: Fp)
    requires fp in Relevant(ev, cert, auth)
    ensures NotedFor(FullLog(ev, cert, auth), fp)
  {
    if IsComplete(ev, cert, auth, fp) {
      ViewIsNoted(ev, cert, auth, CrlId(fp), fp);
    } else if IsDelta(ev, cert, auth, fp) && BaseSet(ev, cert, auth, fp) != {} {
      var b :| b in BaseSet(ev, cert, auth, fp);
      ViewIsNoted(ev, cert, auth, PairId(b, fp), fp);
    } else if IsResponse(ev, cert, auth, fp) {
      ViewIsNoted(ev, cert, auth, OcspId(fp), fp);
    } else {
      var why := if IsDelta(ev, cert, auth, fp) then NoBase
                 else if IsCrlFor(ev, cert, fp) then CrlFate(ev, auth, fp)
                 else OcspFate(ev, cert, auth, fp);
      var e := Event(fp, Excluded(why));
      LogContents(ev, cert, auth, e);
      SelectionContents(ev, cert, auth, e);
      assert Noted(FullLog(ev, cert, auth), e);
    }
  }

  /** "Used" is written for the selected view's evidence only. */
  lemma UsedMeansSelected(ev: Evidence, cert: Cert, auth: Authority, fp: Fp)
    ensures Noted(FullLog(ev, cert, auth), Event(fp, Used)) <==>
              SelectedView(ev, cert, auth).Some? && fp in SelectedView(ev, cert, auth).value.evidence
  {
    LogContents(ev, cert, auth, Event(fp, Used));
    SelectionContents(ev, cert, auth, Event(fp, Used));
  }

  /** What a log does to the records of one inquiry. */
  lemma {:induction false} NoteAllEvaluated(accounting: map<Fp, Disposition>, log: Log, fp: Fp)
    ensures var r := NoteAll(Book(accounting, map[]), log);
            && (fp in r.evaluated <==> NotedFor(log, fp))
            && (fp in r.evaluated ==>
                  && fp in r.accounting
                  && if Noted(log, Event(fp, Used)) then r.evaluated[fp] == r.accounting[fp] == Used
                     else if fp in accounting then r.evaluated[fp] == r.accounting[fp] == accounting[fp]
                     else r.evaluated[fp] == r.accounting[fp] && Noted(log, Event(fp, r.evaluated[fp])))
  {
    if log.Then? {
      NoteAllEvaluated(accounting, log.earlier, fp);
      NoteAllEffect(Book(accounting, map[]), log.earlier, fp);
      assert NotedFor(log, fp) <==> NotedFor(log.earlier, fp) || log.last.fp == fp by {
        if NotedFor(log.earlier, fp) {
          var e :| Noted(log.earlier, e) && e.fp == fp;
          assert Noted(log, e);
        }
        if log.last.fp == fp {
          assert Noted(log, log.last);
        }
      }
    }
  }

  /** The evidence that an outcome lists is what the inquiry looked at. An object is listed as used if
      the inquiry selected it, else as an earlier inquiry left it, else for this inquiry's reason. */
  lemma EvaluatedMeans(ev: Evidence, accounting: map<Fp, Disposition>, cert: Cert, issuer: Cert, fp: Fp)
    ensures var o, auth := Computed(ev, accounting, cert, issuer), AuthorityOf(issuer);
            && o.cert == cert.fp && o.issuer == issuer.fp
            && (fp in o.evaluated <==> fp in Relevant(ev, cert, auth))
            && (fp in o.evaluated ==>
                  if Selects(o, fp) then o.evaluated[fp] == Used
                  else if fp in accounting then o.evaluated[fp] == accounting[fp]
                  else Noted(FullLog(ev, cert, auth), Event(fp, o.evaluated[fp])))
  {
    hide ConclusionOf, FullLog, Relevant, NoteAll, SelectedView;
    var auth := AuthorityOf(issuer);
    NoteAllEvaluated(accounting, FullLog(ev, cert, auth), fp);
    UsedMeansSelected(ev, cert, auth, fp);
    LogCoversRelevant(ev, cert, auth, fp);
  }

  lemma {:induction false} DefectsPresent(log: Log)
    ensures DefectsIn(log) > 0 <==> exists e :: Noted(log, e) && Defects(e.disposition) > 0
  {
    if log.Then? {
      DefectsPresent(log.earlier);
      if DefectsIn(log.earlier) > 0 {
        var e :| Noted(log.earlier, e) && Defects(e.disposition) > 0;
        assert Noted(log, e);
      } else if DefectsIn(log) > 0 {
        assert Noted(log, log.last);
      }
    }
  }

  /** The count of defective evidence is positive exactly when some evidence is defective. */
  lemma DefectsMeanDefective(ev: Evidence, cert: Cert, auth: Authority)
    ensures DefectsIn(ScanLog(ev, cert, auth)) > 0 <==> AnyDefective(ev, cert, auth)
  {
    var log := ScanLog(ev, cert, auth);
    DefectsPresent(log);
    if DefectsIn(log) > 0 {
      var e :| Noted(log, e) && Defects(e.disposition) > 0;
      LogContents(ev, cert, auth, e);
    }
    if AnyDefective(ev, cert, auth) {
      var e := DefectiveEvent(ev, cert, auth);
      assert Noted(log, e);
    }
  }

  lemma DefectiveEvent(ev: Evidence, cert: Cert, auth: Authority) returns (e: Event)
    requires AnyDefective(ev, cert, auth)
    ensures Noted(ScanLog(ev, cert, auth), e) && Defects(e.disposition) > 0
  {
    if fp :| IsCrlFor(ev, cert, fp) && IsDefective(CrlFate(ev, auth, fp)) {
      e := Event(fp, Excluded(CrlFate(ev, auth, fp)));
    } else if fp :| IsDelta(ev, cert, auth, fp) && BaseSet(ev, cert, auth, fp) == {} {
      e := Event(fp, Excluded(NoBase));
    } else {
      var fp :| IsOcspFor(ev, cert, auth, fp) && IsDefective(OcspFate(ev, cert, auth, fp));
      e := Event(fp, Excluded(OcspFate(ev, cert, auth, fp)));
    }
    LogContents(ev, cert, auth, e);
  }

  lemma AskedKeepsBalance(ev: Evidence, l: Ledger, cert: Cert, issuer: Cert)
    requires Balanced(l)
    ensures Balanced(Asked(ev, l, cert, issuer))
  {
    var key := (cert.fp, issuer.key);
    if key !in l.cache {
      var auth := AuthorityOf(issuer);
      var after := Asked(ev, l, cert, issuer);
      var outcome := after.cache[key];
      forall fp
        ensures fp in after.accounting <==> fp in after.touched
        ensures fp in after.accounting ==>
                  (after.accounting[fp] == Used <==>
                     (fp in l.accounting && l.accounting[fp] == Used) || Selects(outcome, fp))
        ensures Selects(outcome, fp) ==> fp in after.accounting
      {
        NoteAllEffect(Book(l.accounting, map[]), FullLog(ev, cert, auth), fp);
        LogCoversRelevant(ev, cert, auth, fp);
        UsedMeansSelected(ev, cert, auth, fp);
      }
      assert after.accounting.Keys == after.touched;
      CacheGrows(l, after, key, outcome);
    }
  }

  lemma CacheGrows(l: Ledger, after: Ledger, key: (Fp, Key), outcome: Outcome)
    requires Balanced(l) && key !in l.cache && after.cache == l.cache[key := outcome]
    requires after.accounting.Keys == after.touched
    requires forall fp :: fp in l.accounting ==> fp in after.accounting
    requires forall fp :: fp in after.accounting ==>
               (after.accounting[fp] == Used <==>
                  (fp in l.accounting && l.accounting[fp] == Used) || Selects(outcome, fp))
    requires forall fp :: Selects(outcome, fp) ==> fp in after.accounting
    ensures Balanced(after)
  {
    forall fp ensures SelectedBySome(after.cache, fp) <==> SelectedBySome(l.cache, fp) || Selects(outcome, fp) {
      if SelectedBySome(after.cache, fp) {
        var k :| k in after.cache && Selects(after.cache[k], fp);
        assert k == key || (k in l.cache && l.cache[k] == after.cache[k]);
      }
      if Selects(outcome, fp) {
        assert key in after.cache && Selects(after.cache[key], fp);
      }
      if SelectedBySome(l.cache, fp) {
        var k :| k in l.cache && Selects(l.cache[k], fp);
        assert k in after.cache && Selects(after.cache[k], fp);
      }
    }
  }

  /** In the books of any run of calls, starting from empty ones, the accounted evidence is
      the touched evidence and "used" means selected by some cached outcome. */
  lemma {:induction false} BooksAlwaysBalance(ev: Evidence, calls: seq<(Cert, Cert)>)
    ensures Balanced(AskedAll(ev, BLANK, calls))
  {
    if calls != [] {
      var n := |calls| - 1;
      BooksAlwaysBalance(ev, calls[..n]);
      AskedKeepsBalance(ev, AskedAll(ev, BLANK, calls[..n]), calls[n].0, calls[n].1);
    }
  }

  /** Later calls never take "used" back, nor drop a record, a cached outcome or touched evidence. */
  lemma {:induction false} BooksOnlyGrow(ev: Evidence, l: Ledger, calls: seq<(Cert, Cert)>, fp: Fp)
    ensures var after := AskedAll(ev, l, calls);
            && (fp in l.accounting ==> fp in after.accounting)
            && (fp in l.accounting && l.accounting[fp] == Used ==> after.accounting[fp] == Used)
            && l.touched <= after.touched
            && (forall k :: k in l.cache ==> k in after.cache && after.cache[k] == l.cache[k])
  {
    if calls != [] {
      var n := |calls| - 1;
      BooksOnlyGrow(ev, l, calls[..n], fp);
      var before := AskedAll(ev, l, calls[..n]);
      NoteAllEffect(Book(before.accounting, map[]), FullLog(ev, calls[n].0, AuthorityOf(calls[n].1)), fp);
    }
  }

  // ----- When the cache is transparent ---------------------------------------------------

  /** Certificates are told apart by their fingerprints. */
  ghost predicate Identified(certs: set<Cert>) {
    forall c, d :: c in certs && d in certs && c.fp == d.fp ==> c == d
  }

  /** Issuer candidates of one certificate that share a key share their subject key identifier. */
  ghost predicate SkiCoherent(certs: set<Cert>) {
    forall c, i, j :: c in certs && i in certs && j in certs && SameQuestion(c, i, j) ==> i.ski == j.ski
  }

  /** The cache cannot tell a question about one of these issuers from one about the other. */
  predicate SameQuestion(c: Cert, i: Cert, j: Cert) {
    IssuerMatches(c, i) && IssuerMatches(c, j) && i.key == j.key
  }

  ghost predicate AllAmong(calls: seq<(Cert, Cert)>, certs: set<Cert>) {
    forall k :: 0 <= k < |calls| ==>
      calls[k].0 in certs && calls[k].1 in certs && IssuerMatches(calls[k].0, calls[k].1)
  }

  /** The outcome cached for this question is what a fresh computation would give. */
  ghost predicate AsFresh(ev: Evidence, l: Ledger, c: Cert, i: Cert) {
    (c.fp, i.key) in l.cache ==>
      l.cache[(c.fp, i.key)].conclusion == ConclusionOf(ev, c, AuthorityOf(i))
      && l.cache[(c.fp, i.key)].selected == SelectedView(ev, c, AuthorityOf(i))
  }

  /** Every cached outcome is the answer a fresh computation would give to any issuer
      candidate with that key. */
  ghost predicate Transparent(ev: Evidence, l: Ledger, certs: set<Cert>) {
    forall c, i :: c in certs && i in certs && IssuerMatches(c, i) ==> AsFresh(ev, l, c, i)
  }

  /** After any sequence of calls on any evidence. */
  ghost predicate AlwaysTransparent(certs: set<Cert>) {
    forall ev, calls :: AllAmong(calls, certs) ==> Transparent(ev, AskedAll(ev, BLANK, calls), certs)
  }

  /** The cache never shows, whatever is asked on whatever evidence, exactly when issuer
      candidates of one certificate that share a key share their subject key identifier. */
  lemma CacheIsTransparent(certs: set<Cert>)
    requires Identified(certs)
    ensures AlwaysTransparent(certs) <==> SkiCoherent(certs)
  {
    if SkiCoherent(certs) {
      forall ev, calls | AllAmong(calls, certs) ensures Transparent(ev, AskedAll(ev, BLANK, calls), certs) {
        CallsStayTransparent(ev, calls, certs);
      }
    } else {
      var c, i, j :| c in certs && i in certs && j in certs && SameQuestion(c, i, j) && i.ski != j.ski;
      SameKeyInterchangeable(c, AuthorityOf(i), AuthorityOf(j));
      var ev :| ConclusionOf(ev, c, AuthorityOf(i)) != ConclusionOf(ev, c, AuthorityOf(j));
      FirstAnswerSticks(ev, c, i, j);
      assert AllAmong([(c, i)], certs);
      assert !AsFresh(ev, AskedAll(ev, BLANK, [(c, i)]), c, j);
      assert !Transparent(ev, AskedAll(ev, BLANK, [(c, i)]), certs);
    }
  }

  /** The answer for one issuer is given to another with the same key. */
  lemma FirstAnswerSticks(ev: Evidence, c: Cert, i: Cert, j: Cert)
    requires i.key == j.key
    ensures var l := AskedAll(ev, BLANK, [(c, i)]);
            (c.fp, j.key) in l.cache && l.cache[(c.fp, j.key)].conclusion == ConclusionOf(ev, c, AuthorityOf(i))
  {
    hide ConclusionOf, SelectedView, Relevant;
    assert [(c, i)][..0] == [];
    assert AskedAll(ev, BLANK, [(c, i)]) == Asked(ev, AskedAll(ev, BLANK, []), c, i);
  }

  lemma {:induction false} CallsStayTransparent(ev: Evidence, calls: seq<(Cert, Cert)>, certs: set<Cert>)
    requires Identified(certs) && SkiCoherent(certs) && AllAmong(calls, certs)
    ensures Transparent(ev, AskedAll(ev, BLANK, calls), certs)
  {
    if calls != [] {
      var n := |calls| - 1;
      CallsStayTransparent(ev, calls[..n], certs);
      AskedStaysTransparent(ev, AskedAll(ev, BLANK, calls[..n]), calls[n].0, calls[n].1, certs);
    }
  }

  lemma AskedStaysTransparent(ev: Evidence, l: Ledger, cert: Cert, issuer: Cert, certs: set<Cert>)
    requires Identified(certs) && SkiCoherent(certs)
    requires cert in certs && issuer in certs && IssuerMatches(cert, issuer)
    requires Transparent(ev, l, certs)
    ensures Transparent(ev, Asked(ev, l, cert, issuer), certs)
  {
    hide ConclusionOf, SelectedView;
    var after := Asked(ev, l, cert, issuer);
    forall c, i | c in certs && i in certs && IssuerMatches(c, i) ensures AsFresh(ev, after, c, i) {
      if (c.fp, i.key) !in l.cache && (c.fp, i.key) in after.cache {
        assert c == cert && SameQuestion(c, i, issuer);
        assert AuthorityOf(i) == AuthorityOf(issuer);
      } else {
        assert AsFresh(ev, l, c, i);
      }
    }
  }
}
