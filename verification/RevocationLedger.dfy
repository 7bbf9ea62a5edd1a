/** The evaluator's books across calls: the status cache, the outcome per certificate and
    the accounting of evidence, as functions of the calls made so far. */
module RevocationLedger {
  import opened Basics
  import opened Certificates
  import opened Revocation

  datatype Disposition = Used | NotSelected | Excluded(why: Fate)

  datatype Event = Event(fp: Fp, disposition: Disposition)

  datatype Book = Book(accounting: map<Fp, Disposition>, evaluated: map<Fp, Disposition>)

  /** `_record`: an entry stands, except that "used" replaces anything else. */
  function Amend(accounting: map<Fp, Disposition>, e: Event): map<Fp, Disposition> {
    if e.fp in accounting && !(accounting[e.fp] != Used && e.disposition == Used) then accounting
    else accounting[e.fp := e.disposition]
  }

  function Note(b: Book, e: Event): Book {
    var accounting := Amend(b.accounting, e);
    Book(accounting,
         if e.disposition != Used && e.fp in b.evaluated then b.evaluated
         else b.evaluated[e.fp := accounting[e.fp]])
  }

  /** The events of a computation, oldest innermost. */
  datatype Log = Empty | Then(earlier: Log, last: Event)

  function NoteAll(b: Book, log: Log): Book {
    match log
    case Empty => b
    case Then(earlier, e) => Note(NoteAll(b, earlier), e)
  }

  function DefectsIn(log: Log): nat {
    match log
    case Empty => 0
    case Then(earlier, e) => DefectsIn(earlier) + Defects(e.disposition)
  }

  function Defects(d: Disposition): nat {
    if d.Excluded? && IsDefective(d.why) then 1 else 0
  }

  predicate Noted(log: Log, e: Event) {
    match log
    case Empty => false
    case Then(earlier, last) => last == e || Noted(earlier, e)
  }

  // ----- What one computation writes into the books ------------------------------

  function CrlEntry(ev: Evidence, auth: Authority, log: Log, fp: Fp): Log {
    if fp !in ev.crls then log
    else
      var fate := CrlFate(ev, auth, fp);
      if fate.CompleteCrl? || fate.DeltaCrl? then log else Then(log, Event(fp, Excluded(fate)))
  }

  function CrlLog(ev: Evidence, auth: Authority, log: Log, fps: seq<Fp>, n: nat): Log
    requires n <= |fps|
  {
    if n == 0 then log else CrlEntry(ev, auth, CrlLog(ev, auth, log, fps, n - 1), fps[n - 1])
  }

  function DeltaEntry(ev: Evidence, cert: Cert, auth: Authority, log: Log, delta: Fp): Log {
    if BaseList(ev, cert, auth, delta) == [] then Then(log, Event(delta, Excluded(NoBase))) else log
  }

  function DeltaLog(ev: Evidence, cert: Cert, auth: Authority, log: Log, deltas: seq<Fp>, n: nat): Log
    requires n <= |deltas|
  {
    if n == 0 then log else DeltaEntry(ev, cert, auth, DeltaLog(ev, cert, auth, log, deltas, n - 1), deltas[n - 1])
  }

  function OcspEntry(ev: Evidence, cert: Cert, auth: Authority, log: Log, fp: Fp): Log {
    if IsOcspFor(ev, cert, auth, fp) && !IsResponse(ev, cert, auth, fp)
    then Then(log, Event(fp, Excluded(OcspFate(ev, cert, auth, fp)))) else log
  }

  function OcspLog(ev: Evidence, cert: Cert, auth: Authority, log: Log, fps: seq<Fp>, n: nat): Log
    requires n <= |fps|
  {
    if n == 0 then log else OcspEntry(ev, cert, auth, OcspLog(ev, cert, auth, log, fps, n - 1), fps[n - 1])
  }

  function MarkLog(log: Log, fps: seq<Fp>, d: Disposition, n: nat): Log
    requires n <= |fps|
  {
    if n == 0 then log else Then(MarkLog(log, fps, d, n - 1), Event(fps[n - 1], d))
  }

  /** The first view's evidence is used; that of views 1 to `n` - 1 is not selected. */
  function SelectionLog(log: Log, views: seq<View>, n: nat): Log
    requires n <= |views|
  {
    if n == 0 then log
    else
      var d := if n == 1 then Used else NotSelected;
      var evidence := views[n - 1].evidence;
      MarkLog(SelectionLog(log, views, n - 1), evidence, d, |evidence|)
  }

  function ScanLog(ev: Evidence, cert: Cert, auth: Authority): Log {
    var crls, deltas, ocsps := CrlList(ev, cert), Deltas(ev, cert, auth), OcspList(ev);
    var a := CrlLog(ev, auth, Empty, crls, |crls|);
    var b := DeltaLog(ev, cert, auth, a, deltas, |deltas|);
    OcspLog(ev, cert, auth, b, ocsps, |ocsps|)
  }

  function FullLog(ev: Evidence, cert: Cert, auth: Authority): Log {
    var views := SortViews(Views(ev, cert, auth));
    SelectionLog(ScanLog(ev, cert, auth), views, |views|)
  }

  // ----- The ledger ------------------------------------------------------------------

  datatype Outcome = Outcome(
    cert: Fp, issuer: Fp, conclusion: Conclusion, selected: Option<View>, evaluated: map<Fp, Disposition>)

  datatype Ledger = Ledger(
    cache: map<(Fp, Key), Outcome>, outcomes: map<Fp, Outcome>,
    accounting: map<Fp, Disposition>, touched: set<Fp>)

  const BLANK := Ledger(map[], map[], map[], {})

  ghost function Computed(ev: Evidence, accounting: map<Fp, Disposition>, cert: Cert, issuer: Cert): Outcome {
    var auth := AuthorityOf(issuer);
    Outcome(cert.fp, issuer.fp, ConclusionOf(ev, cert, auth), SelectedView(ev, cert, auth),
            NoteAll(Book(accounting, map[]), FullLog(ev, cert, auth)).evaluated)
  }

  /** One call of `status`. */
  ghost function Asked(ev: Evidence, l: Ledger, cert: Cert, issuer: Cert): Ledger {
    var key := (cert.fp, issuer.key);
    if key in l.cache then l
    else
      var auth := AuthorityOf(issuer);
      var outcome := Computed(ev, l.accounting, cert, issuer);
      Ledger(l.cache[key := outcome], l.outcomes[cert.fp := outcome],
             NoteAll(Book(l.accounting, map[]), FullLog(ev, cert, auth)).accounting,
             l.touched + Relevant(ev, cert, auth))
  }

  /** The ledger after a sequence of calls. */
  ghost function AskedAll(ev: Evidence, l: Ledger, calls: seq<(Cert, Cert)>): Ledger {
    if calls == [] then l
    else
      var (cert, issuer) := calls[|calls| - 1];
      Asked(ev, AskedAll(ev, l, calls[..|calls| - 1]), cert, issuer)
  }

  // ----- Accounting over any sequence of calls -----------------------------------------

  predicate Selects(o: Outcome, fp: Fp) {
    o.selected.Some? && fp in o.selected.value.evidence
  }

  /** Some cached outcome selected the object. */
  ghost predicate SelectedBySome(cache: map<(Fp, Key), Outcome>, fp: Fp) {
    exists k :: k in cache && Selects(cache[k], fp)
  }

  /** The accounted evidence is exactly the touched evidence, and a record says "used"
      exactly when some cached outcome selected the object. */
  ghost predicate Balanced(l: Ledger) {
    && l.accounting.Keys == l.touched
    && (forall fp :: fp in l.accounting ==>
          (l.accounting[fp] == Used <==> SelectedBySome(l.cache, fp)))
    && (forall fp :: SelectedBySome(l.cache, fp) ==> fp in l.accounting)
  }

  ghost predicate NotedFor(log: Log, fp: Fp) {
    exists e :: Noted(log, e) && e.fp == fp
  }

  /** What a log does to the accounting of one object. */
  lemma {:induction false} NoteAllEffect(b: Book, log: Log, fp: Fp)
    ensures var after := NoteAll(b, log).accounting;
            && (fp in after <==> fp in b.accounting || NotedFor(log, fp))
            && (fp in after ==>
                  (after[fp] == Used <==>
                     (fp in b.accounting && b.accounting[fp] == Used) || Noted(log, Event(fp, Used))))
            && (fp in b.accounting && !Noted(log, Event(fp, Used)) ==> after[fp] == b.accounting[fp])
  {
    if log.Then? {
      NoteAllEffect(b, log.earlier, fp);
      assert NotedFor(log, fp) <==> NotedFor(log.earlier, fp) || log.last.fp == fp by {
        if NotedFor(log.earlier, fp) {
          var e :| Noted(log.earlier, e) && e.fp == fp;
          assert Noted(log, e);
        }
        if log.last.fp == fp {
          assert Noted(log, log.last);
        }
      }
    }
  }

  lemma {:induction false} CrlNoted(ev: Evidence, auth: Authority, log: Log, fps: seq<Fp>, n: nat, e: Event)
    requires n <= |fps|
    ensures Noted(CrlLog(ev, auth, log, fps, n), e) <==>
              Noted(log, e)
              || (e.fp in fps[..n] && e.fp in ev.crls && e.disposition == Excluded(CrlFate(ev, auth, e.fp))
                  && !e.disposition.why.CompleteCrl? && !e.disposition.why.DeltaCrl?)
  {
    if n > 0 {
      CrlNoted(ev, auth, log, fps, n - 1, e);
      assert fps[..n] == fps[..n - 1] + [fps[n - 1]];
    }
  }

  lemma {:induction false} DeltaNoted(ev: Evidence, cert: Cert, auth: Authority, log: Log, deltas: seq<Fp>, n: nat,
          e: Event)
    requires n <= |deltas|
    ensures Noted(DeltaLog(ev, cert, auth, log, deltas, n), e) <==>
              Noted(log, e)
              || (e.fp in deltas[..n] && BaseList(ev, cert, auth, e.fp) == [] && e.disposition == Excluded(NoBase))
  {
    if n > 0 {
      DeltaNoted(ev, cert, auth, log, deltas, n - 1, e);
      assert deltas[..n] == deltas[..n - 1] + [deltas[n - 1]];
    }
  }

  lemma {:induction false} OcspNoted(ev: Evidence, cert: Cert, auth: Authority, log: Log, fps: seq<Fp>, n: nat,
          e: Event)
    requires n <= |fps|
    ensures Noted(OcspLog(ev, cert, auth, log, fps, n), e) <==>
              Noted(log, e)
              || (e.fp in fps[..n] && IsOcspFor(ev, cert, auth, e.fp) && !IsResponse(ev, cert, auth, e.fp)
                  && e.disposition == Excluded(OcspFate(ev, cert, auth, e.fp)))
  {
    if n > 0 {
      OcspNoted(ev, cert, auth, log, fps, n - 1, e);
      assert fps[..n] == fps[..n - 1] + [fps[n - 1]];
    }
  }

  lemma {:induction false} MarkNoted(log: Log, fps: seq<Fp>, d: Disposition, n: nat, e: Event)
    requires n <= |fps|
    ensures Noted(MarkLog(log, fps, d, n), e) <==> Noted(log, e) || (e.fp in fps[..n] && e.disposition == d)
  {
    if n > 0 {
      MarkNoted(log, fps, d, n - 1, e);
      assert fps[..n] == fps[..n - 1] + [fps[n - 1]];
    }
  }

  lemma {:induction false} SelectionNoted(log: Log, views: seq<View>, n: nat, e: Event)
    requires n <= |views|
    ensures Noted(SelectionLog(log, views, n), e) <==>
              || Noted(log, e)
              || (e.disposition == Used && n > 0 && e.fp in views[0].evidence)
              || (e.disposition == NotSelected && exists i :: 1 <= i < n && e.fp in views[i].evidence)
  {
    if n > 0 {
      var evidence := views[n - 1].evidence;
      SelectionNoted(log, views, n - 1, e);
      MarkNoted(SelectionLog(log, views, n - 1), evidence, if n == 1 then Used else NotSelected, |evidence|, e);
      assert evidence[..|evidence|] == evidence;
    }
  }
}
