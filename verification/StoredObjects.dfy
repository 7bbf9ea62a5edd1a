/** Objects as the store keeps them: DER bytes with a type and a time of receipt
    (app/objmeta.py, app/store.py), the objects they decode to, and the manifest of a set. */
module StoredObjects {
  import opened Basics
  import opened Certificates
  import opened Revocation
  import opened Worlds
  import opened Shrinking
  import opened Inputs

  datatype ObjectKind = CertificateKind | CrlKind | OcspKind

  /** One row of the objects table, less its key. Certificates may have no time of receipt. */
  datatype Row = Row(kind: ObjectKind, der: Bytes, at: Option<Instant>, entryCount: nat)

  type Rows = map<Fp, Row>

  /** SHA-256 as a number, the parsers, and how texts are read. */
  datatype Decoder = Decoder(
    fingerprint: Bytes -> Fp,
    cert: Bytes -> Option<Cert>, crl: Bytes -> Option<Crl>, ocsp: Bytes -> Option<Ocsp>,
    texts: Texts)
  {
    /** No two objects collide. */
    ghost predicate Sound() {
      forall a, b :: fingerprint(a) == fingerprint(b) ==> a == b
    }

    /** Fingerprints are numbers of 64 hex digits. This is a thing of its own: no function on all
        byte strings is both bounded and free of collisions. */
    ghost predicate Bounded() {
      forall a :: fingerprint(a) < Pow16(64)
    }
  }

  function Decode(dec: Decoder, kind: ObjectKind, der: Bytes, at: Option<Instant>): Option<Item> {
    match kind
    case CertificateKind =>
      if dec.cert(der) == None then None else Some(CertItem(dec.cert(der).value, at))
    case CrlKind =>
      if dec.crl(der) == None || at == None then None else Some(CrlItem(dec.crl(der).value, at.value))
    case OcspKind =>
      if dec.ocsp(der) == None || at == None then None else Some(OcspItem(dec.ocsp(der).value, at.value))
  }

  /** `revocation_entry_count`. */
  function EntryCount(item: Item): nat {
    match item
    case CertItem(_, _) => 0
    case CrlItem(crl, _) => |crl.entries|
    case OcspItem(ocsp, _) => |ocsp.responses|
  }

  /** The rows are filed under their fingerprints, decode, and count their entries. */
  ghost predicate WellFiled(dec: Decoder, rows: Rows) {
    forall fp :: fp in rows ==> RowOk(dec, fp, rows[fp])
  }

  ghost predicate RowOk(dec: Decoder, fp: Fp, row: Row) {
    var item := Decode(dec, row.kind, row.der, row.at);
    dec.fingerprint(row.der) == fp && item.Some? && row.entryCount == EntryCount(item.value)
  }

  /** The objects that the rows decode to. */
  function ObjectsOf(dec: Decoder, rows: Rows): Objects {
    map fp | fp in rows && Decode(dec, rows[fp].kind, rows[fp].der, rows[fp].at).Some? ::
      Decode(dec, rows[fp].kind, rows[fp].der, rows[fp].at).value
  }

  function KeepRows(rows: Rows, keep: set<Fp>): Rows {
    map fp | fp in rows && fp in keep :: rows[fp]
  }

  lemma ObjectsOfKept(dec: Decoder, rows: Rows, keep: set<Fp>)
    ensures ObjectsOf(dec, KeepRows(rows, keep)) == Restrict(ObjectsOf(dec, rows), keep)
    ensures WellFiled(dec, rows) ==> WellFiled(dec, KeepRows(rows, keep))
    ensures WellFiled(dec, rows) ==> ObjectsOf(dec, rows).Keys == rows.Keys
  {
  }

  // ----- Fingerprints ----------------------------------------------------------------------

  function Below(n: nat): (r: set<nat>)
    ensures |r| == n && forall i: nat :: i in r <==> i < n
  {
    if n == 0 then {} else Below(n - 1) + {n - 1}
  }

  function Zeros(n: nat): Bytes {
    seq(n, _ => 0)
  }

  /** The fingerprints of the first `n` strings of zeros. */
  ghost function SomeFingerprints(dec: Decoder, n: nat): (r: set<Fp>)
    requires dec.Sound()
    ensures |r| == n && forall fp :: fp in r <==> exists i: nat :: i < n && dec.fingerprint(Zeros(i)) == fp
  {
    if n == 0 then {}
    else
      var rest := SomeFingerprints(dec, n - 1);
      assert forall i: nat :: i < n - 1 ==> |Zeros(i)| != |Zeros(n - 1)|;
      rest + {dec.fingerprint(Zeros(n - 1))}
  }

  /** A bounded hash function on all byte strings collides somewhere. So freedom of collisions and
      a bound are never required together. */
  lemma BoundedCollides(dec: Decoder)
    requires dec.Bounded()
    ensures !dec.Sound()
  {
    if dec.Sound() {
      var n := Pow16(64);
      assert SomeFingerprints(dec, n + 1) <= Below(n);
      SubsetSize(SomeFingerprints(dec, n + 1), Below(n));
      assert false;
    }
  }

  /** A fingerprint that ends in a newline names no stored object. */
  lemma NewlineNamesNothing(dec: Decoder, rows: Rows, s: string)
    requires dec.Bounded() && WellFiled(dec, rows) && IsFingerprint(s) && |s| == 65
    ensures FpOf(s) !in rows && FpOf(s) !in ObjectsOf(dec, rows)
  {
    forall fp | fp in rows ensures fp < Pow16(64) {
      assert RowOk(dec, fp, rows[fp]);
    }
  }

  // ----- Counts ------------------------------------------------------------------------------

  /** The sum of `f` over a set. */
  function SumOver(s: set<Fp>, f: Fp -> nat): nat {
    if s == {} then 0
    else
      var m := Least(s);
      f(m) + SumOver(s - {m}, f)
  }

  lemma {:induction false} SumRemove(s: set<Fp>, f: Fp -> nat, x: Fp)
    requires x in s
    ensures SumOver(s, f) == f(x) + SumOver(s - {x}, f)
    decreases s
  {
    var m := Least(s);
    if m != x {
      SumRemove(s - {m}, f, x);
      assert s - {m} - {x} == s - {x} - {m};
      LeastStays(s, x);
    }
  }

  lemma LeastStays(s: set<Fp>, x: Fp)
    requires x in s && x != Least(s)
    ensures s - {x} != {} && Least(s - {x}) == Least(s)
  {
    assert Least(s) in s - {x};
  }

  lemma {:induction false} SumSame(s: set<Fp>, f: Fp -> nat, g: Fp -> nat)
    requires forall x :: x in s ==> f(x) == g(x)
    ensures SumOver(s, f) == SumOver(s, g)
    decreases s
  {
    if s != {} {
      SumSame(s - {Least(s)}, f, g);
    }
  }

  function CountKind(rows: Rows, kind: ObjectKind): nat {
    SumOver(rows.Keys, fp => if fp in rows && rows[fp].kind == kind then 1 else 0)
  }

  function CountEntries(rows: Rows): nat {
    SumOver(rows.Keys, fp => if fp in rows then rows[fp].entryCount else 0)
  }

  datatype Counts = Counts(certificates: nat, crls: nat, ocsps: nat, entries: nat, total: nat) {
    function Evidence(): nat { crls + ocsps }
  }

  /** `object_counts`, with CRLs and OCSP responses apart as the manifest has them. */
  function CountsOf(rows: Rows): Counts {
    Counts(CountKind(rows, CertificateKind), CountKind(rows, CrlKind), CountKind(rows, OcspKind),
           CountEntries(rows), |rows|)
  }

  function CountsWith(c: Counts, row: Row): Counts {
    Counts(c.certificates + if row.kind == CertificateKind then 1 else 0,
           c.crls + if row.kind == CrlKind then 1 else 0,
           c.ocsps + if row.kind == OcspKind then 1 else 0,
           c.entries + row.entryCount, c.total + 1)
  }

  lemma SumInsert(rows: Rows, fp: Fp, row: Row, f: Fp -> nat, g: Fp -> nat)
    requires fp !in rows && forall x :: x in rows ==> f(x) == g(x)
    ensures SumOver(rows[fp := row].Keys, g) == SumOver(rows.Keys, f) + g(fp)
  {
    SumRemove(rows[fp := row].Keys, g, fp);
    assert rows[fp := row].Keys - {fp} == rows.Keys;
    SumSame(rows.Keys, f, g);
  }

  lemma KindInsert(rows: Rows, fp: Fp, row: Row, kind: ObjectKind)
    requires fp !in rows
    ensures CountKind(rows[fp := row], kind) == CountKind(rows, kind) + if row.kind == kind then 1 else 0
  {
    var more := rows[fp := row];
    SumInsert(rows, fp, row, x => if x in rows && rows[x].kind == kind then 1 else 0,
              x => if x in more && more[x].kind == kind then 1 else 0);
  }

  lemma EntriesInsert(rows: Rows, fp: Fp, row: Row)
    requires fp !in rows
    ensures CountEntries(rows[fp := row]) == CountEntries(rows) + row.entryCount
  {
    var more := rows[fp := row];
    SumInsert(rows, fp, row, x => if x in rows then rows[x].entryCount else 0,
              x => if x in more then more[x].entryCount else 0);
  }

  /** One more object is counted once. */
  lemma CountsInsert(rows: Rows, fp: Fp, row: Row)
    requires fp !in rows
    ensures CountsOf(rows[fp := row]) == CountsWith(CountsOf(rows), row)
  {
    hide CountKind, CountEntries;
    KindInsert(rows, fp, row, CertificateKind);
    KindInsert(rows, fp, row, CrlKind);
    KindInsert(rows, fp, row, OcspKind);
    EntriesInsert(rows, fp, row);
  }

  function OfKind(rows: Rows, kind: ObjectKind): set<Fp> {
    set fp | fp in rows && rows[fp].kind == kind
  }

  /** These are the entries of all the objects, each by its object and its number. */
  ghost predicate EntriesIn(rows: Rows, entries: set<(Fp, nat)>) {
    forall e :: e in entries <==> e.0 in rows && e.1 < rows[e.0].entryCount
  }

  lemma {:induction false} SumOfOnes(s: set<Fp>, f: Fp -> nat, chosen: set<Fp>)
    requires chosen <= s && forall x :: x in s ==> f(x) == if x in chosen then 1 else 0
    ensures SumOver(s, f) == |chosen|
    decreases s
  {
    if s != {} {
      var m := Least(s);
      SumOfOnes(s - {m}, f, chosen - {m});
      assert m !in chosen ==> chosen - {m} == chosen;
    }
  }

  function EntriesAt(fp: Fp, n: nat): (r: set<(Fp, nat)>)
    ensures |r| == n && forall e :: e in r <==> e.0 == fp && e.1 < n
  {
    if n == 0 then {} else EntriesAt(fp, n - 1) + {(fp, n - 1)}
  }

  lemma {:induction false} SumIsSize(s: set<Fp>, f: Fp -> nat, entries: set<(Fp, nat)>)
    requires forall e :: e in entries <==> e.0 in s && e.1 < f(e.0)
    ensures SumOver(s, f) == |entries|
    decreases s
  {
    if s == {} {
      assert entries == {};
    } else {
      var m := Least(s);
      var here, rest := EntriesAt(m, f(m)), set e | e in entries && e.0 != m;
      SumIsSize(s - {m}, f, rest);
      assert entries == here + rest;
      assert here !! rest;
    }
  }

  lemma KindsCounted(rows: Rows, kind: ObjectKind)
    ensures CountKind(rows, kind) == |OfKind(rows, kind)|
  {
    SumOfOnes(rows.Keys, fp => if fp in rows && rows[fp].kind == kind then 1 else 0, OfKind(rows, kind));
  }

  lemma EntriesCounted(rows: Rows, entries: set<(Fp, nat)>)
    requires EntriesIn(rows, entries)
    ensures CountEntries(rows) == |entries|
  {
    SumIsSize(rows.Keys, fp => if fp in rows then rows[fp].entryCount else 0, entries);
  }

  /** The counts are sizes: of the sets of objects of each kind, of all objects, and of the set of all
      entries. */
  lemma CountsMean(rows: Rows, entries: set<(Fp, nat)>)
    requires EntriesIn(rows, entries)
    ensures var c := CountsOf(rows);
            && c.certificates == |OfKind(rows, CertificateKind)| && c.crls == |OfKind(rows, CrlKind)|
            && c.ocsps == |OfKind(rows, OcspKind)| && c.total == |rows.Keys| && c.entries == |entries|
  {
    hide CountKind, CountEntries, OfKind;
    KindsCounted(rows, CertificateKind);
    KindsCounted(rows, CrlKind);
    KindsCounted(rows, OcspKind);
    EntriesCounted(rows, entries);
  }

  // ----- Manifests ---------------------------------------------------------------------------

  datatype Line = Line(fp: Fp, kind: ObjectKind, at: Option<Instant>)

  datatype Manifest = Manifest(counts: Counts, entries: seq<Line>)

  /** One line per object, in fingerprint order. */
  function EntriesOf(rows: Rows, fps: seq<Fp>): (r: seq<Line>)
    requires forall fp :: fp in fps ==> fp in rows
  {
    seq(|fps|, i requires 0 <= i < |fps| => Line(fps[i], rows[fps[i]].kind, rows[fps[i]].at))
  }

  /** The manifest that sealing writes down. */
  function ManifestOf(rows: Rows): Manifest {
    Manifest(CountsOf(rows), EntriesOf(rows, Ascending(rows.Keys)))
  }

  lemma EntriesListRows(rows: Rows, e: Line)
    ensures e in ManifestOf(rows).entries <==> e.fp in rows && rows[e.fp].kind == e.kind && rows[e.fp].at == e.at
  {
    var fps := Ascending(rows.Keys);
    if e.fp in rows && rows[e.fp].kind == e.kind && rows[e.fp].at == e.at {
      assert e.fp in fps;
      var i :| 0 <= i < |fps| && fps[i] == e.fp;
      assert EntriesOf(rows, fps)[i] == e;
    }
  }

  /** Rows that agree on what a manifest lists. */
  ghost predicate SameListing(a: Rows, b: Rows) {
    a.Keys == b.Keys && forall fp :: fp in a ==> a[fp].kind == b[fp].kind && a[fp].at == b[fp].at
  }

  lemma SameListingSameRows(dec: Decoder, a: Rows, b: Rows)
    requires dec.Sound() && WellFiled(dec, a) && WellFiled(dec, b) && SameListing(a, b)
    ensures a == b
  {
    hide Decode, EntryCount;
    forall fp | fp in a ensures a[fp] == b[fp] {
      assert RowOk(dec, fp, a[fp]) && RowOk(dec, fp, b[fp]);
    }
  }

  lemma SameManifestSameListing(a: Rows, b: Rows)
    requires ManifestOf(a) == ManifestOf(b)
    ensures SameListing(a, b)
  {
    hide ManifestOf;
    forall fp ensures fp in a ==> fp in b && a[fp].kind == b[fp].kind && a[fp].at == b[fp].at {
      if fp in a {
        EntriesListRows(a, Line(fp, a[fp].kind, a[fp].at));
        EntriesListRows(b, Line(fp, a[fp].kind, a[fp].at));
      }
    }
    forall fp ensures fp in b ==> fp in a {
      if fp in b {
        EntriesListRows(a, Line(fp, b[fp].kind, b[fp].at));
        EntriesListRows(b, Line(fp, b[fp].kind, b[fp].at));
      }
    }
    assert a.Keys == b.Keys;
  }

  /** Under collision-free hashing a manifest determines the stored objects. */
  lemma ManifestDeterminesRows(dec: Decoder, a: Rows, b: Rows)
    requires dec.Sound() && WellFiled(dec, a) && WellFiled(dec, b)
    ensures ManifestOf(a) == ManifestOf(b) <==> a == b
    ensures SameListing(a, b) <==> a == b
  {
    hide ManifestOf, WellFiled;
    if SameListing(a, b) {
      SameListingSameRows(dec, a, b);
    }
    if ManifestOf(a) == ManifestOf(b) {
      SameManifestSameListing(a, b);
      SameListingSameRows(dec, a, b);
    }
  }
}
