/** What uploads guarantee: nothing is lost or counted twice, the limits hold, and only the
    first submission of each object matters. */
module UploadHistories {
  import opened Basics
  import opened StoredObjects
  import opened Uploads

  // ----- The first submission of an object ---------------------------------------------------

  function FirstRow(parsed: seq<Parsed>, n: nat, fp: Fp): Option<Row>
    requires n <= |parsed|
  {
    if n == 0 then None
    else if FirstRow(parsed, n - 1, fp).Some? then FirstRow(parsed, n - 1, fp)
    else if parsed[n - 1].fp == fp then Some(parsed[n - 1].row)
    else None
  }

  lemma {:induction false} FirstRowPresent(parsed: seq<Parsed>, n: nat, fp: Fp)
    requires n <= |parsed|
    ensures FirstRow(parsed, n, fp).Some? <==> Has(parsed, n, fp)
  {
    if n > 0 {
      FirstRowPresent(parsed, n - 1, fp);
    }
  }

  ghost predicate Distinct(items: seq<Parsed>) {
    forall i, j :: 0 <= i < j < |items| ==> items[i].fp != items[j].fp
  }

  lemma {:induction false} FirstsListed(parsed: seq<Parsed>, n: nat)
    requires n <= |parsed|
    ensures Distinct(FirstsOf(parsed, n))
    ensures forall p :: p in FirstsOf(parsed, n) <==> FirstRow(parsed, n, p.fp) == Some(p.row)
  {
    if n > 0 {
      FirstsListed(parsed, n - 1);
      var p, rest := parsed[n - 1], FirstsOf(parsed, n - 1);
      FirstRowPresent(parsed, n - 1, p.fp);
      assert forall i :: 0 <= i < |rest| ==> rest[i] in rest;
      hide Has;
      forall q ensures q in FirstsOf(parsed, n) <==> FirstRow(parsed, n, q.fp) == Some(q.row) {
        assert q in rest <==> FirstRow(parsed, n - 1, q.fp) == Some(q.row);
      }
    }
  }

  lemma {:induction false} NewMembers(rows: Rows, firsts: seq<Parsed>, n: nat)
    requires n <= |firsts|
    ensures forall p :: p in NewOf(rows, firsts, n) <==> p in firsts[..n] && p.fp !in rows
  {
    if n > 0 {
      NewMembers(rows, firsts, n - 1);
      assert firsts[..n] == firsts[..n - 1] + [firsts[n - 1]];
    }
  }

  lemma {:induction false} NewDistinct(rows: Rows, firsts: seq<Parsed>, n: nat)
    requires n <= |firsts| && Distinct(firsts[..n])
    ensures Distinct(NewOf(rows, firsts, n))
  {
    if n > 0 {
      assert firsts[..n - 1] == firsts[..n][..n - 1];
      NewDistinct(rows, firsts, n - 1);
      NewMembers(rows, firsts, n - 1);
      var rest := NewOf(rows, firsts, n - 1);
      forall i | 0 <= i < |rest| ensures rest[i].fp != firsts[n - 1].fp {
        assert rest[i] in firsts[..n - 1];
        var k :| 0 <= k < n - 1 && firsts[..n - 1][k] == rest[i];
        assert firsts[..n][k] == rest[i] && firsts[..n][n - 1] == firsts[n - 1];
      }
    }
  }

  /** The items taken from a batch. */
  function Taken(dec: Decoder, items: seq<Submission>): seq<Parsed> {
    TakenOf(dec, items, |items|)
  }

  /** The row a batch offers for an object: that of its first submission. */
  function Offered(dec: Decoder, items: seq<Submission>, fp: Fp): Option<Row> {
    FirstRow(Taken(dec, items), |Taken(dec, items)|, fp)
  }

  lemma NewInListed(dec: Decoder, rows: Rows, items: seq<Submission>)
    ensures Distinct(NewIn(dec, rows, items))
    ensures forall p :: p in NewIn(dec, rows, items) <==> p.fp !in rows && Offered(dec, items, p.fp) == Some(p.row)
  {
    var taken := Taken(dec, items);
    var firsts := FirstsOf(taken, |taken|);
    FirstsListed(taken, |taken|);
    assert firsts[..|firsts|] == firsts;
    NewMembers(rows, firsts, |firsts|);
    NewDistinct(rows, firsts, |firsts|);
  }

  // ----- Inserting ---------------------------------------------------------------------------

  /** `after` is `rows` with the items, whose objects it lacks, each filed once. */
  ghost predicate Inserted(rows: Rows, items: seq<Parsed>, n: nat, after: Rows)
    requires n <= |items|
  {
    && (forall fp :: fp in after <==> fp in rows || Has(items, n, fp))
    && (forall fp :: fp in rows ==> fp in after && after[fp] == rows[fp])
    && (forall i :: 0 <= i < n ==> items[i].fp in after && after[items[i].fp] == items[i].row)
  }

  lemma InsertedNext(rows: Rows, items: seq<Parsed>, n: nat, before: Rows)
    requires 0 < n <= |items| && Distinct(items) && items[n - 1].fp !in rows && Inserted(rows, items, n - 1, before)
    ensures items[n - 1].fp !in before
    ensures Inserted(rows, items, n, before[items[n - 1].fp := items[n - 1].row])
  {
    var p := items[n - 1];
    forall i | 0 <= i < n - 1 ensures items[i].fp != p.fp {
    }
    assert Has(items, n, p.fp);
  }

  lemma {:induction false} InsertAllInserts(rows: Rows, items: seq<Parsed>, n: nat)
    requires n <= |items| && Distinct(items) && forall p :: p in items ==> p.fp !in rows
    ensures Inserted(rows, items, n, InsertAll(rows, items, n))
    ensures CountsOf(InsertAll(rows, items, n)) == CountsPlus(CountsOf(rows), items, n)
  {
    hide CountsOf, CountsWith, Inserted;
    if n > 0 {
      InsertAllInserts(rows, items, n - 1);
      var p, before := items[n - 1], InsertAll(rows, items, n - 1);
      assert p in items;
      InsertedNext(rows, items, n, before);
      CountsInsert(before, p.fp, p.row);
    } else {
      NothingInserted(rows, items);
    }
  }

  lemma NothingInserted(rows: Rows, items: seq<Parsed>)
    ensures Inserted(rows, items, 0, rows)
  {
  }

  /** The batch's first submission of each object that was not there is added, and nothing
      else is changed; the counts reported are those of the set afterwards. */
  ghost predicate AddsOffers(dec: Decoder, rows: Rows, items: seq<Submission>, r: Uploaded) {
    r.Stored? ==>
      && (forall fp :: (fp in r.rows <==> fp in rows || Offered(dec, items, fp).Some?)
                       && (fp in r.rows ==>
                             r.rows[fp] == if fp in rows then rows[fp] else Offered(dec, items, fp).value))
      && r.receipt.counts == CountsOf(r.rows) && WithinLimits(r.receipt.counts)
  }

  /** What storing a batch means. */
  lemma UploadMeans(dec: Decoder, rows: Rows, items: seq<Submission>)
    ensures AddsOffers(dec, rows, items, Upload(dec, rows, items))
  {
    hide CountsOf, Offered, CountsPlus, NewIn, DuplicatesIn, TurnedOf, SortNames, TakenOf, InsertAll;
    var added := NewIn(dec, rows, items);
    NewInListed(dec, rows, items);
    InsertAllInserts(rows, added, |added|);
    var after := InsertAll(rows, added, |added|);
    forall fp ensures (fp in after <==> fp in rows || Offered(dec, items, fp).Some?)
      ensures fp in after ==> after[fp] == if fp in rows then rows[fp] else Offered(dec, items, fp).value
    {
      if fp !in rows && Offered(dec, items, fp).Some? {
        var p := Parsed(fp, Offered(dec, items, fp).value);
        assert p in added;
        var i :| 0 <= i < |added| && added[i] == p;
      }
      if fp !in rows && fp in after {
        var i :| 0 <= i < |added| && added[i].fp == fp;
        assert added[i] in added;
      }
    }
  }

  /** All the DER of a batch, one object after the other. */
  function AllDer(parsed: seq<Parsed>): Bytes {
    if parsed == [] then [] else parsed[0].row.der + AllDer(parsed[1..])
  }

  lemma {:induction false} AllDerSnoc(parsed: seq<Parsed>, p: Parsed)
    ensures AllDer(parsed + [p]) == AllDer(parsed) + p.row.der
  {
    if parsed == [] {
      assert parsed + [p] == [p];
      assert AllDer([p][1..]) == [];
    } else {
      assert (parsed + [p])[1..] == parsed[1..] + [p];
      AllDerSnoc(parsed[1..], p);
    }
  }

  lemma {:induction false} BytesCounted(parsed: seq<Parsed>, n: nat)
    requires n <= |parsed|
    ensures BytesOf(parsed, n) == |AllDer(parsed[..n])|
  {
    if n > 0 {
      BytesCounted(parsed, n - 1);
      assert parsed[..n] == parsed[..n - 1] + [parsed[n - 1]];
      AllDerSnoc(parsed[..n - 1], parsed[n - 1]);
    }
  }

  /** A batch is refused for the first of the five limits that it would exceed, and stored if it would
      exceed none: 4,096 items, 128 MiB of DER, and in the set afterwards 100,000 certificates,
      2,000 CRLs and OCSP responses, and 1,000,000 entries. */
  lemma LimitsAreExact(dec: Decoder, rows: Rows, items: seq<Submission>, entries: set<(Fp, nat)>)
    requires var added := NewIn(dec, rows, items); EntriesIn(InsertAll(rows, added, |added|), entries)
    ensures var added := NewIn(dec, rows, items);
            var after := InsertAll(rows, added, |added|);
            var short, light := |items| <= 4096, |AllDer(Taken(dec, items))| <= 134_217_728;
            var certs := |OfKind(after, CertificateKind)| <= 100_000;
            var evidence := |OfKind(after, CrlKind)| + |OfKind(after, OcspKind)| <= 2_000;
            match Upload(dec, rows, items)
            case Refused(BatchTooLong) => !short
            case Refused(BatchTooLarge) => short && !light
            case Refused(CertificateLimit) => short && light && !certs
            case Refused(EvidenceLimit) => short && light && certs && !evidence
            case Refused(EntryLimit) => short && light && certs && evidence && |entries| > 1_000_000
            case Stored(_, _) => short && light && certs && evidence && |entries| <= 1_000_000
  {
    hide CountsOf, CountsPlus, NewIn, DuplicatesIn, TurnedOf, SortNames, OfKind;
    var added := NewIn(dec, rows, items);
    NewInListed(dec, rows, items);
    InsertAllInserts(rows, added, |added|);
    CountsMean(InsertAll(rows, added, |added|), entries);
    var taken := Taken(dec, items);
    BytesCounted(taken, |taken|);
    assert taken[..|taken|] == taken;
  }

  lemma {:induction false} TakenWellFiled(dec: Decoder, items: seq<Submission>, n: nat)
    requires n <= |items|
    ensures forall p :: p in TakenOf(dec, items, n) ==> RowOk(dec, p.fp, p.row)
  {
    hide RowOk, Screen;
    if n > 0 {
      TakenWellFiled(dec, items, n - 1);
      TakenIsWellFiled(dec, items[n - 1]);
    }
  }

  lemma {:induction false} FirstRowTaken(parsed: seq<Parsed>, n: nat, fp: Fp)
    requires n <= |parsed|
    ensures FirstRow(parsed, n, fp).Some? ==> Parsed(fp, FirstRow(parsed, n, fp).value) in parsed
  {
    if n > 0 {
      FirstRowTaken(parsed, n - 1, fp);
      assert parsed[n - 1] in parsed;
    }
  }

  lemma UploadKeepsFiled(dec: Decoder, rows: Rows, items: seq<Submission>)
    requires WellFiled(dec, rows)
    ensures Upload(dec, rows, items).Stored? ==> WellFiled(dec, Upload(dec, rows, items).rows)
  {
    hide RowOk, Upload, TakenOf, CountsOf;
    UploadMeans(dec, rows, items);
    var taken := Taken(dec, items);
    TakenWellFiled(dec, items, |items|);
    var r := Upload(dec, rows, items);
    if r.Stored? {
      forall fp | fp in r.rows ensures RowOk(dec, fp, r.rows[fp]) {
        if fp !in rows {
          FirstRowTaken(taken, |taken|, fp);
          assert Parsed(fp, r.rows[fp]) in taken;
        }
      }
    }
  }

  // ----- Receipts ------------------------------------------------------------------------------

  /** The names of some items, with repetitions and without order. */
  ghost function Bag(items: seq<Parsed>): multiset<Name> {
    multiset(NamesOf(items))
  }

  lemma BagSnoc(a: seq<Parsed>, p: Parsed)
    ensures Bag(a + [p]) == Bag(a) + multiset{Name(p.fp, p.row.kind)}
    ensures a + [] == a
  {
    assert NamesOf(a + [p]) == NamesOf(a) + [Name(p.fp, p.row.kind)];
  }

  lemma {:induction false} FirstsAndRepeats(parsed: seq<Parsed>, n: nat)
    requires n <= |parsed|
    ensures Bag(FirstsOf(parsed, n)) + Bag(RepeatsOf(parsed, n)) == Bag(parsed[..n])
  {
    hide Bag, Has;
    if n > 0 {
      FirstsAndRepeats(parsed, n - 1);
      BagSnoc(FirstsOf(parsed, n - 1), parsed[n - 1]);
      BagSnoc(RepeatsOf(parsed, n - 1), parsed[n - 1]);
      assert parsed[..n] == parsed[..n - 1] + [parsed[n - 1]];
      BagSnoc(parsed[..n - 1], parsed[n - 1]);
    } else {
      NoNames(parsed[..0]);
    }
  }

  lemma NoNames(none: seq<Parsed>)
    requires none == []
    ensures Bag(none) == multiset{}
  {
  }

  lemma {:induction false} KnownAndNew(rows: Rows, firsts: seq<Parsed>, n: nat)
    requires n <= |firsts|
    ensures Bag(KnownOf(rows, firsts, n)) + Bag(NewOf(rows, firsts, n)) == Bag(firsts[..n])
  {
    hide Bag;
    if n > 0 {
      KnownAndNew(rows, firsts, n - 1);
      BagSnoc(KnownOf(rows, firsts, n - 1), firsts[n - 1]);
      BagSnoc(NewOf(rows, firsts, n - 1), firsts[n - 1]);
      assert firsts[..n] == firsts[..n - 1] + [firsts[n - 1]];
      BagSnoc(firsts[..n - 1], firsts[n - 1]);
    } else {
      NoNames(firsts[..0]);
    }
  }

  ghost predicate ByFp(names: seq<Name>) {
    forall i, j :: 0 <= i < j < |names| ==> names[i].fp <= names[j].fp
  }

  lemma {:induction false} InsertNameKeeps(x: Name, names: seq<Name>)
    ensures multiset(InsertName(x, names)) == multiset{x} + multiset(names)
  {
    if names != [] {
      assert names == [names[0]] + names[1..];
      InsertNameKeeps(x, names[1..]);
    }
  }

  lemma {:induction false} InsertNameSorts(x: Name, names: seq<Name>)
    requires ByFp(names)
    ensures ByFp(InsertName(x, names))
    ensures |InsertName(x, names)| > 0
        && (InsertName(x, names)[0] == x || (names != [] && InsertName(x, names)[0] == names[0]))
  {
    if names != [] && x.fp >= names[0].fp {
      InsertNameSorts(x, names[1..]);
      var rest := InsertName(x, names[1..]);
      forall j | 0 <= j < |rest| ensures names[0].fp <= rest[j].fp {
        assert rest[0].fp <= rest[j].fp;
      }
    }
  }

  lemma {:induction false} SortNamesSorts(names: seq<Name>)
    ensures ByFp(SortNames(names)) && multiset(SortNames(names)) == multiset(names)
  {
    if names != [] {
      var n := |names| - 1;
      assert names == names[..n] + [names[n]];
      SortNamesSorts(names[..n]);
      InsertNameSorts(names[n], SortNames(names[..n]));
      InsertNameKeeps(names[n], SortNames(names[..n]));
    }
  }

  /** The names of one object, in the order in which they stand. */
  function NamesFor(names: seq<Name>, fp: Fp): seq<Name> {
    if names == [] then []
    else (if names[0].fp == fp then [names[0]] else []) + NamesFor(names[1..], fp)
  }

  lemma {:induction false} NamesForSnoc(names: seq<Name>, x: Name, fp: Fp)
    ensures NamesFor(names + [x], fp) == NamesFor(names, fp) + if x.fp == fp then [x] else []
  {
    if names == [] {
      assert names + [x] == [x];
      assert NamesFor([x][1..], fp) == [];
    } else {
      assert (names + [x])[1..] == names[1..] + [x];
      NamesForSnoc(names[1..], x, fp);
    }
  }

  lemma {:induction false} InsertNameStable(x: Name, names: seq<Name>, fp: Fp)
    requires ByFp(names)
    ensures NamesFor(InsertName(x, names), fp) == NamesFor(names, fp) + if x.fp == fp then [x] else []
  {
    if names == [] {
      NamesForSnoc([], x, fp);
    } else if x.fp < names[0].fp {
      assert ([x] + names)[1..] == names;
      if x.fp == fp {
        NoneFor(names, fp);
      }
    } else {
      InsertNameStable(x, names[1..], fp);
      assert ([names[0]] + InsertName(x, names[1..]))[1..] == InsertName(x, names[1..]);
    }
  }

  lemma {:induction false} NoneFor(names: seq<Name>, fp: Fp)
    requires forall i :: 0 <= i < |names| ==> names[i].fp != fp
    ensures NamesFor(names, fp) == []
  {
    if names != [] {
      NoneFor(names[1..], fp);
    }
  }

  /** Sorting is stable: names of one object stay in the order in which they were. */
  lemma {:induction false} SortNamesIsStable(names: seq<Name>, fp: Fp)
    ensures NamesFor(SortNames(names), fp) == NamesFor(names, fp)
  {
    if names != [] {
      var n := |names| - 1;
      SortNamesSorts(names[..n]);
      SortNamesIsStable(names[..n], fp);
      InsertNameStable(names[n], SortNames(names[..n]), fp);
      NamesForSnoc(names[..n], names[n], fp);
      assert names[..n] + [names[n]] == names;
    }
  }

  lemma {:induction false} TakenOrTurned(dec: Decoder, items: seq<Submission>, n: nat)
    requires n <= |items|
    ensures |TakenOf(dec, items, n)| + |TurnedOf(dec, items, n)| == n
    ensures forall i: nat, e :: (i, e) in TurnedOf(dec, items, n) <==> i < n && Screen(dec, items[i]) == Turned(e)
  {
    hide Screen;
    if n > 0 {
      TakenOrTurned(dec, items, n - 1);
    }
  }

  lemma NamesConcat(a: seq<Parsed>, b: seq<Parsed>)
    ensures NamesOf(a + b) == NamesOf(a) + NamesOf(b)
  {
  }

  /** The batch offers this object, first with this type. */
  predicate Offers(dec: Decoder, items: seq<Submission>, n: Name) {
    Offered(dec, items, n.fp).Some? && Offered(dec, items, n.fp).value.kind == n.kind
  }

  lemma AddedNames(dec: Decoder, rows: Rows, items: seq<Submission>)
    ensures forall n :: n in SortNames(NamesOf(NewIn(dec, rows, items))) <==> n.fp !in rows && Offers(dec, items, n)
  {
    hide SortNames, NewIn, Offered;
    var added := NewIn(dec, rows, items);
    NewInListed(dec, rows, items);
    SortNamesSorts(NamesOf(added));
    var names := NamesOf(added);
    forall n ensures n in names <==> n.fp !in rows && Offers(dec, items, n) {
      if n in names {
        var i :| 0 <= i < |names| && names[i] == n;
        assert added[i] in added;
      }
      if n.fp !in rows && Offers(dec, items, n) {
        var p := Parsed(n.fp, Offered(dec, items, n.fp).value);
        assert p in added;
        var i :| 0 <= i < |added| && added[i] == p;
        assert names[i] == n;
      }
    }
    assert forall n :: n in SortNames(names) <==> n in multiset(SortNames(names));
    assert forall n :: n in names <==> n in multiset(names);
  }

  /** A receipt accounts for every item of the batch exactly once. Added is what the set has now and
      had not before; rejected are the items turned away, by their places; of the others that
      were taken, each is a duplicate. The lists of names are sorted. */
  lemma ReceiptsConserve(dec: Decoder, rows: Rows, items: seq<Submission>)
    ensures var r := Upload(dec, rows, items);
            r.Stored? ==>
              && multiset(r.receipt.added) + multiset(r.receipt.duplicates) == Bag(Taken(dec, items))
              && (forall n :: n in r.receipt.added <==> n.fp !in rows && Offers(dec, items, n))
              && |Taken(dec, items)| + |r.receipt.rejected| == |items|
              && (forall i: nat, e :: (i, e) in r.receipt.rejected <==>
                    i < |items| && Screen(dec, items[i]) == Turned(e))
              && ByFp(r.receipt.added) && ByFp(r.receipt.duplicates)
  {
    AddedNames(dec, rows, items);
    hide CountsOf, SortNames, FirstsOf, RepeatsOf, KnownOf, NewOf, TakenOf, TurnedOf, NamesOf, InsertAll, CountsPlus,
        BytesOf;
    var taken := Taken(dec, items);
    var firsts := FirstsOf(taken, |taken|);
    FirstsAndRepeats(taken, |taken|);
    KnownAndNew(rows, firsts, |firsts|);
    assert taken[..|taken|] == taken && firsts[..|firsts|] == firsts;
    NamesConcat(RepeatsOf(taken, |taken|), KnownOf(rows, firsts, |firsts|));
    SortNamesSorts(NamesOf(NewIn(dec, rows, items)));
    SortNamesSorts(NamesOf(DuplicatesIn(dec, rows, items)));
    TakenOrTurned(dec, items, |items|);
  }

  // ----- Histories ----------------------------------------------------------------------------

  /** The rows of a new set after some batches; `None` if one of them was refused. */
  function History(dec: Decoder, batches: seq<seq<Submission>>): Option<Rows> {
    if batches == [] then Some(map[])
    else
      match History(dec, batches[..|batches| - 1])
      case None => None
      case Some(rows) =>
        match Upload(dec, rows, batches[|batches| - 1])
        case Refused(_) => None
        case Stored(after, _) => Some(after)
  }

  /** The first row the batches offer for an object. */
  function FirstOffer(dec: Decoder, batches: seq<seq<Submission>>, fp: Fp): Option<Row> {
    if batches == [] then None
    else
      var earlier := FirstOffer(dec, batches[..|batches| - 1], fp);
      if earlier.Some? then earlier else Offered(dec, batches[|batches| - 1], fp)
  }

  ghost predicate HoldsFirstOffers(dec: Decoder, batches: seq<seq<Submission>>, rows: Rows) {
    forall fp :: (fp in rows <==> FirstOffer(dec, batches, fp).Some?)
                 && (fp in rows ==> rows[fp] == FirstOffer(dec, batches, fp).value)
  }

  /** A set holds the first offer for every object that was offered, and nothing else; it is
      within the limits and well filed. */
  lemma {:induction false} HistoryMeans(dec: Decoder, batches: seq<seq<Submission>>)
    ensures var rows := History(dec, batches);
            rows.Some? ==>
              HoldsFirstOffers(dec, batches, rows.value) && WithinLimits(CountsOf(rows.value))
                  && WellFiled(dec, rows.value)
  {
    hide CountsOf, WellFiled, Upload, Offered, WithinLimits;
    if batches == [] {
      EmptySetIsFine(dec);
    } else {
      var n := |batches| - 1;
      HistoryMeans(dec, batches[..n]);
      if History(dec, batches[..n]).Some? {
        var rows := History(dec, batches[..n]).value;
        UploadMeans(dec, rows, batches[n]);
        UploadKeepsFiled(dec, rows, batches[n]);
      }
    }
  }

  lemma EmptySetIsFine(dec: Decoder)
    ensures WithinLimits(CountsOf(map[])) && WellFiled(dec, map[])
  {
    var none: Rows := map[];
    assert none.Keys == {};
  }

  ghost predicate AgreeOn(a: Option<Row>, b: Option<Row>) {
    (a.Some? <==> b.Some?) && (a.Some? ==> a.value.kind == b.value.kind && a.value.at == b.value.at)
  }

  ghost predicate OffersAgree(dec: Decoder, a: seq<seq<Submission>>, b: seq<seq<Submission>>) {
    forall fp :: AgreeOn(FirstOffer(dec, a, fp), FirstOffer(dec, b, fp))
  }

  /** Two upload histories seal to the same manifest exactly when for every object the first
      submissions agree on type and time of receipt, or neither history has the object. */
  lemma HistoriesAgree(dec: Decoder, a: seq<seq<Submission>>, b: seq<seq<Submission>>)
    requires dec.Sound() && History(dec, a).Some? && History(dec, b).Some?
    ensures ManifestOf(History(dec, a).value) == ManifestOf(History(dec, b).value) <==> OffersAgree(dec, a, b)
    ensures OffersAgree(dec, a, b) <==> History(dec, a) == History(dec, b)
  {
    hide History, FirstOffer, ManifestOf, WellFiled, CountsOf, WithinLimits;
    var x, y := History(dec, a).value, History(dec, b).value;
    HistoryMeans(dec, a);
    HistoryMeans(dec, b);
    ManifestDeterminesRows(dec, x, y);
    if OffersAgree(dec, a, b) {
      forall fp ensures fp in x <==> fp in y
        ensures fp in x ==> x[fp].kind == y[fp].kind && x[fp].at == y[fp].at
      {
        assert AgreeOn(FirstOffer(dec, a, fp), FirstOffer(dec, b, fp));
      }
      assert x.Keys == y.Keys;
      assert SameListing(x, y);
    } else {
      var fp :| !AgreeOn(FirstOffer(dec, a, fp), FirstOffer(dec, b, fp));
      assert fp in x <==> FirstOffer(dec, a, fp).Some?;
      assert fp in y <==> FirstOffer(dec, b, fp).Some?;
    }
  }

  /** Some batch submits this object with this row. */
  ghost predicate Submits(dec: Decoder, batches: seq<seq<Submission>>, p: Parsed) {
    exists i :: 0 <= i < |batches| && p in Taken(dec, batches[i])
  }

  lemma {:induction false} OfferIsSubmitted(dec: Decoder, batches: seq<seq<Submission>>, fp: Fp)
    ensures FirstOffer(dec, batches, fp).Some? ==> Submits(dec, batches, Parsed(fp, FirstOffer(dec, batches, fp).value))
  {
    if batches != [] {
      var n := |batches| - 1;
      OfferIsSubmitted(dec, batches[..n], fp);
      var earlier := FirstOffer(dec, batches[..n], fp);
      if earlier.Some? {
        var i :| 0 <= i < n && Parsed(fp, earlier.value) in Taken(dec, batches[..n][i]);
        assert batches[..n][i] == batches[i];
      } else if FirstOffer(dec, batches, fp).Some? {
        FirstRowTaken(Taken(dec, batches[n]), |Taken(dec, batches[n])|, fp);
      }
    }
  }

  lemma {:induction false} SubmittedIsOffered(dec: Decoder, batches: seq<seq<Submission>>, p: Parsed)
    requires Submits(dec, batches, p)
    ensures FirstOffer(dec, batches, p.fp).Some?
  {
    var n := |batches| - 1;
    var i :| 0 <= i < |batches| && p in Taken(dec, batches[i]);
    if i < n {
      assert batches[..n][i] == batches[i];
      SubmittedIsOffered(dec, batches[..n], p);
    } else {
      FirstRowPresent(Taken(dec, batches[n]), |Taken(dec, batches[n])|, p.fp);
      var k :| 0 <= k < |Taken(dec, batches[n])| && Taken(dec, batches[n])[k] == p;
    }
  }

  /** Every object is submitted with one type and time of receipt only. */
  ghost predicate OneTimeEach(dec: Decoder, a: seq<seq<Submission>>, b: seq<seq<Submission>>) {
    forall p, q ::
      (Submits(dec, a, p) || Submits(dec, b, p)) && (Submits(dec, a, q) || Submits(dec, b, q)) && p.fp == q.fp ==>
        p == q
  }

  /** Order, batching and repetition do not matter: histories without refusals that submit the
      same objects, each with one time of receipt, seal to the same manifest. */
  lemma UploadsAreConfluent(dec: Decoder, a: seq<seq<Submission>>, b: seq<seq<Submission>>)
    requires dec.Sound() && History(dec, a).Some? && History(dec, b).Some?
    requires OneTimeEach(dec, a, b)
    requires forall p :: Submits(dec, a, p) <==> Submits(dec, b, p)
    ensures History(dec, a) == History(dec, b)
    ensures ManifestOf(History(dec, a).value) == ManifestOf(History(dec, b).value)
  {
    hide History, FirstOffer, ManifestOf, Submits;
    forall fp ensures AgreeOn(FirstOffer(dec, a, fp), FirstOffer(dec, b, fp)) {
      OfferIsSubmitted(dec, a, fp);
      OfferIsSubmitted(dec, b, fp);
      if FirstOffer(dec, a, fp).Some? {
        SubmittedIsOffered(dec, b, Parsed(fp, FirstOffer(dec, a, fp).value));
      }
      if FirstOffer(dec, b, fp).Some? {
        SubmittedIsOffered(dec, a, Parsed(fp, FirstOffer(dec, b, fp).value));
      }
    }
    HistoriesAgree(dec, a, b);
  }
}
