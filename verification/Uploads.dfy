/** Batches of objects added to an open evidence set (app/api.py, `add_objects`): which items
    are taken, which are duplicates, and when the limits refuse the batch. */
module Uploads {
  import opened Basics
  import opened Certificates
  import opened Inputs
  import opened StoredObjects
  import Json = CanonicalJson

  const MAX_CERTIFICATES: nat := 100_000
  const MAX_REVOCATION_EVIDENCE: nat := 2_000
  const MAX_REVOCATION_ENTRIES: nat := 1_000_000
  const MAX_OBJECT_BYTES: nat := 32 * 1024 * 1024
  const MAX_BATCH_OBJECTS: nat := 4_096
  const MAX_BATCH_BYTES: nat := 128 * 1024 * 1024
  const CHUNK: nat := 500

  // ----- Items ----------------------------------------------------------------------------

  /** An item of a batch, as submitted: any JSON value. */
  type Submission = Json.Value

  /** `item.get`: null stands for a field that is not there. */
  function Field(s: Submission, name: string): Json.Value
    requires s.Obj?
  {
    if name in s.fields then s.fields[name] else Json.Null
  }

  function KindOf(v: Json.Value): Option<ObjectKind> {
    if v == Json.Str("certificate") then Some(CertificateKind)
    else if v == Json.Str("crl") then Some(CrlKind)
    else if v == Json.Str("ocsp") then Some(OcspKind)
    else None
  }

  function DerOf(texts: Texts, v: Json.Value): Option<Bytes> {
    if v.Str? then texts.decode64(v.text) else None
  }

  function TimeOf(texts: Texts, v: Json.Value): Option<Instant> {
    if v.Str? then texts.parseTime(v.text) else None
  }

  /** What an item says, for the checks that follow. */
  datatype Reading = Reading(kind: Option<ObjectKind>, der: Option<Bytes>, at: SubmittedTime)

  datatype SubmittedTime = Absent | Unreadable | At(instant: Instant)

  function TimeRead(texts: Texts, v: Json.Value): SubmittedTime {
    match TimeOf(texts, v)
    case Some(t) => At(t)
    case None => if v.Null? then Absent else Unreadable
  }

  function ReadItem(texts: Texts, s: Submission): Reading
    requires s.Obj?
  {
    Reading(KindOf(Field(s, "type")), DerOf(texts, Field(s, "der")), TimeRead(texts, Field(s, "received_at")))
  }

  datatype ItemError = InvalidObject | InvalidType | InvalidDer | ObjectTooLarge | InvalidReceivedAt | Unparseable

  datatype Parsed = Parsed(fp: Fp, row: Row)

  datatype Screened = Taken(item: Parsed) | Turned(error: ItemError)

  /** The checks on one item, in order. */
  function Screen(dec: Decoder, s: Submission): Screened {
    if !s.Obj? then Turned(InvalidObject)
    else
      var r := ReadItem(dec.texts, s);
      if r.kind == None then Turned(InvalidType)
      else if r.der == None then Turned(InvalidDer)
      else if r.der.value == [] || |r.der.value| > MAX_OBJECT_BYTES then Turned(ObjectTooLarge)
      else if r.at == Unreadable || (r.at == Absent && r.kind != Some(CertificateKind)) then Turned(InvalidReceivedAt)
      else
        var at := if r.at.At? then Some(r.at.instant) else None;
        var item := Decode(dec, r.kind.value, r.der.value, at);
        if item == None then Turned(Unparseable)
        else Taken(Parsed(dec.fingerprint(r.der.value), Row(r.kind.value, r.der.value, at, EntryCount(item.value))))
  }

  lemma TakenIsWellFiled(dec: Decoder, s: Submission)
    ensures Screen(dec, s).Taken? ==> RowOk(dec, Screen(dec, s).item.fp, Screen(dec, s).item.row)
  {
  }

  /** The fields of an item say this of an object: its type by name, its DER in base64, and when it
      was received, which a certificate may leave out. */
  predicate Describes(dec: Decoder, s: Submission, kind: ObjectKind, der: Bytes, at: Option<Instant>)
    requires s.Obj?
  {
    && "type" in s.fields
    && s.fields["type"] == Json.Str(match kind case CertificateKind => "certificate"
                                               case CrlKind => "crl"
                                               case OcspKind => "ocsp")
    && "der" in s.fields && s.fields["der"].Str? && dec.texts.decode64(s.fields["der"].text) == Some(der)
    && (match at
        case Some(t) =>
          "received_at" in s.fields && s.fields["received_at"].Str?
          && dec.texts.parseTime(s.fields["received_at"].text) == Some(t)
        case None => kind == CertificateKind && ("received_at" in s.fields ==> s.fields["received_at"] == Json.Null))
  }

  /** How many entries the parser of its type finds in an object: revoked certificates in a CRL,
      single responses in an OCSP response, none in a certificate. */
  function EntriesFound(dec: Decoder, kind: ObjectKind, der: Bytes): Option<nat> {
    match kind
    case CertificateKind => if dec.cert(der).Some? then Some(0) else None
    case CrlKind => if dec.crl(der).Some? then Some(|dec.crl(der).value.entries|) else None
    case OcspKind => if dec.ocsp(der).Some? then Some(|dec.ocsp(der).value.responses|) else None
  }

  /** An item is taken as this object exactly when its fields say so, the DER has 1 byte to 32 MiB and
      parses, and the object is filed under its hash with the number of its entries. */
  lemma TakenMeans(dec: Decoder, s: Submission, fp: Fp, row: Row)
    ensures Screen(dec, s) == Taken(Parsed(fp, row)) <==>
              && s.Obj? && Describes(dec, s, row.kind, row.der, row.at)
              && 0 < |row.der| <= 33_554_432 && fp == dec.fingerprint(row.der)
              && EntriesFound(dec, row.kind, row.der) == Some(row.entryCount)
  {
  }

  /** The type that an item names. */
  predicate NamesKind(s: Submission)
    requires s.Obj?
  {
    "type" in s.fields && s.fields["type"] in {Json.Str("certificate"), Json.Str("crl"), Json.Str("ocsp")}
  }

  predicate HasDer(dec: Decoder, s: Submission)
    requires s.Obj?
  {
    "der" in s.fields && s.fields["der"].Str? && dec.texts.decode64(s.fields["der"].text).Some?
  }

  predicate HasTime(dec: Decoder, s: Submission)
    requires s.Obj?
  {
    if "received_at" in s.fields && s.fields["received_at"] != Json.Null then
      s.fields["received_at"].Str? && dec.texts.parseTime(s.fields["received_at"].text).Some?
    else "type" in s.fields && s.fields["type"] == Json.Str("certificate")
  }

  /** Why an item is turned away: the first of these that is wrong with its fields. */
  lemma TurnedMeans(dec: Decoder, s: Submission)
    ensures match Screen(dec, s)
            case Taken(_) => s.Obj? && NamesKind(s) && HasDer(dec, s) && HasTime(dec, s)
            case Turned(InvalidObject) => !s.Obj?
            case Turned(InvalidType) => s.Obj? && !NamesKind(s)
            case Turned(InvalidDer) => s.Obj? && NamesKind(s) && !HasDer(dec, s)
            case Turned(ObjectTooLarge) =>
              s.Obj? && NamesKind(s) && HasDer(dec, s)
              && var size := |dec.texts.decode64(s.fields["der"].text).value|;
              size == 0 || size > 33_554_432
            case Turned(InvalidReceivedAt) => s.Obj? && NamesKind(s) && HasDer(dec, s) && !HasTime(dec, s)
            case Turned(Unparseable) => s.Obj? && NamesKind(s) && HasDer(dec, s) && HasTime(dec, s)
  {
  }

  // ----- What a request digest is taken of --------------------------------------------------

  /** `_canon_for_fp`: a readable time of receipt is written in canonical form, all else is left
      as submitted. */
  function CanonItem(texts: Texts, s: Submission): Submission {
    if s.Obj? && TimeOf(texts, Field(s, "received_at")).Some?
    then Json.Obj(s.fields["received_at" := Json.Str(texts.canonTime(TimeOf(texts, Field(s, "received_at")).value))])
    else s
  }

  function CanonItems(texts: Texts, items: seq<Submission>): seq<Submission> {
    seq(|items|, i requires 0 <= i < |items| => CanonItem(texts, items[i]))
  }

  /** Writing the time of receipt in canonical form keeps it. */
  predicate KeepsItsTime(texts: Texts, s: Submission) {
    s.Obj? && Field(s, "received_at").Str? ==> texts.KeepsTime(Field(s, "received_at").text)
  }

  /** The canonical form says what the item says, and is its own canonical form. */
  lemma CanonKeepsMeaning(dec: Decoder, s: Submission)
    requires KeepsItsTime(dec.texts, s)
    ensures Screen(dec, CanonItem(dec.texts, s)) == Screen(dec, s)
    ensures CanonItem(dec.texts, CanonItem(dec.texts, s)) == CanonItem(dec.texts, s)
  {
    var c := CanonItem(dec.texts, s);
    if c != s {
      assert forall name :: name != "received_at" ==> Field(c, name) == Field(s, name);
      assert TimeOf(dec.texts, Field(c, "received_at")) == TimeOf(dec.texts, Field(s, "received_at"));
      assert c.fields["received_at" := Field(c, "received_at")] == c.fields;
    }
  }

  /** Two items have one canonical form exactly when they have the same fields but for the time
      of receipt, and this is written alike or is one and the same instant. */
  lemma CanonSame(texts: Texts, a: Submission, b: Submission)
    requires a.Obj? && b.Obj? && KeepsItsTime(texts, a) && KeepsItsTime(texts, b)
    ensures CanonItem(texts, a) == CanonItem(texts, b) <==>
              && a.fields - {"received_at"} == b.fields - {"received_at"}
              && ("received_at" in a.fields <==> "received_at" in b.fields)
              && var s, t := Field(a, "received_at"), Field(b, "received_at");
              s == t || (TimeOf(texts, s).Some? && TimeOf(texts, s) == TimeOf(texts, t))
  {
    var c, d := CanonItem(texts, a), CanonItem(texts, b);
    FieldApart(a.fields, b.fields, "received_at");
    FieldApart(c.fields, d.fields, "received_at");
    assert c.fields - {"received_at"} == a.fields - {"received_at"};
    assert d.fields - {"received_at"} == b.fields - {"received_at"};
    CanonTimeReads(texts, a);
    CanonTimeReads(texts, b);
  }

  lemma FieldApart(m: map<string, Json.Value>, n: map<string, Json.Value>, name: string)
    ensures m == n <==>
              && m - {name} == n - {name} && (name in m <==> name in n)
              && (name in m && name in n ==> m[name] == n[name])
  {
    if m - {name} == n - {name} && (name in m <==> name in n) && (name in m && name in n ==> m[name] == n[name]) {
      forall k ensures k in m <==> k in n
        ensures k in m && k in n ==> m[k] == n[k]
      {
        assert k in m - {name} <==> k in m && k != name;
        assert k in n - {name} <==> k in n && k != name;
        assert k in m && k != name ==> (m - {name})[k] == m[k];
        assert k in n && k != name ==> (n - {name})[k] == n[k];
      }
    }
  }

  /** The canonical time of receipt reads as the one submitted. */
  lemma CanonTimeReads(texts: Texts, s: Submission)
    requires s.Obj? && KeepsItsTime(texts, s)
    ensures var t, c := Field(s, "received_at"), CanonItem(texts, s);
            && ("received_at" in c.fields <==> "received_at" in s.fields)
            && TimeOf(texts, Field(c, "received_at")) == TimeOf(texts, t)
            && Field(c, "received_at") == match TimeOf(texts, t)
                                         case Some(i) => Json.Str(texts.canonTime(i))
                                         case None => t
  {
  }

  // ----- A batch, item by item --------------------------------------------------------------

  /** The items taken among the first `n`. */
  function TakenOf(dec: Decoder, items: seq<Submission>, n: nat): seq<Parsed>
    requires n <= |items|
  {
    if n == 0 then []
    else TakenOf(dec, items, n - 1) + (match Screen(dec, items[n - 1]) case Taken(p) => [p] case Turned(_) => [])
  }

  function TurnedOf(dec: Decoder, items: seq<Submission>, n: nat): seq<(nat, ItemError)>
    requires n <= |items|
  {
    if n == 0 then []
    else
      TurnedOf(dec, items, n - 1)
      + (match Screen(dec, items[n - 1]) case Taken(_) => [] case Turned(e) => [(n - 1, e)])
  }

  function BytesOf(parsed: seq<Parsed>, n: nat): nat
    requires n <= |parsed|
  {
    if n == 0 then 0 else BytesOf(parsed, n - 1) + |parsed[n - 1].row.der|
  }

  predicate Has(parsed: seq<Parsed>, n: nat, fp: Fp)
    requires n <= |parsed|
  {
    exists i :: 0 <= i < n && parsed[i].fp == fp
  }

  /** The items whose object occurs for the first time in the batch, and the others. */
  function FirstsOf(parsed: seq<Parsed>, n: nat): seq<Parsed>
    requires n <= |parsed|
  {
    if n == 0 then []
    else FirstsOf(parsed, n - 1) + if Has(parsed, n - 1, parsed[n - 1].fp) then [] else [parsed[n - 1]]
  }

  function RepeatsOf(parsed: seq<Parsed>, n: nat): seq<Parsed>
    requires n <= |parsed|
  {
    if n == 0 then []
    else RepeatsOf(parsed, n - 1) + if Has(parsed, n - 1, parsed[n - 1].fp) then [parsed[n - 1]] else []
  }

  /** The items that are in the store already, and the new ones. */
  function KnownOf(rows: Rows, firsts: seq<Parsed>, n: nat): seq<Parsed>
    requires n <= |firsts|
  {
    if n == 0 then [] else KnownOf(rows, firsts, n - 1) + if firsts[n - 1].fp in rows then [firsts[n - 1]] else []
  }

  function NewOf(rows: Rows, firsts: seq<Parsed>, n: nat): seq<Parsed>
    requires n <= |firsts|
  {
    if n == 0 then [] else NewOf(rows, firsts, n - 1) + if firsts[n - 1].fp in rows then [] else [firsts[n - 1]]
  }

  function InsertAll(rows: Rows, items: seq<Parsed>, n: nat): Rows
    requires n <= |items|
  {
    if n == 0 then rows
    else
      var before := InsertAll(rows, items, n - 1);
      if items[n - 1].fp in before then before else before[items[n - 1].fp := items[n - 1].row]
  }

  function CountsPlus(c: Counts, items: seq<Parsed>, n: nat): Counts
    requires n <= |items|
  {
    if n == 0 then c else CountsWith(CountsPlus(c, items, n - 1), items[n - 1].row)
  }

  predicate WithinLimits(c: Counts) {
    c.certificates <= MAX_CERTIFICATES && c.Evidence() <= MAX_REVOCATION_EVIDENCE && c.entries <= MAX_REVOCATION_ENTRIES
  }

  // ----- The whole batch -----------------------------------------------------------------------

  datatype UploadError = BatchTooLong | BatchTooLarge | CertificateLimit | EvidenceLimit | EntryLimit

  datatype Name = Name(fp: Fp, kind: ObjectKind)

  datatype Receipt = Receipt(added: seq<Name>, duplicates: seq<Name>, rejected: seq<(nat, ItemError)>, counts: Counts)

  datatype Uploaded = Refused(error: UploadError) | Stored(rows: Rows, receipt: Receipt)

  function NamesOf(items: seq<Parsed>): seq<Name> {
    seq(|items|, i requires 0 <= i < |items| => Name(items[i].fp, items[i].row.kind))
  }

  /** Stable insertion by fingerprint. */
  function InsertName(x: Name, names: seq<Name>): seq<Name> {
    if names == [] || x.fp < names[0].fp then [x] + names else [names[0]] + InsertName(x, names[1..])
  }

  /** `sorted(..., key=fingerprint)`. */
  function SortNames(names: seq<Name>): seq<Name> {
    if names == [] then [] else InsertName(names[|names| - 1], SortNames(names[..|names| - 1]))
  }

  /** The objects that a batch would add to a set. */
  function NewIn(dec: Decoder, rows: Rows, items: seq<Submission>): seq<Parsed> {
    var taken := TakenOf(dec, items, |items|);
    var firsts := FirstsOf(taken, |taken|);
    NewOf(rows, firsts, |firsts|)
  }

  function DuplicatesIn(dec: Decoder, rows: Rows, items: seq<Submission>): seq<Parsed> {
    var taken := TakenOf(dec, items, |items|);
    var firsts := FirstsOf(taken, |taken|);
    RepeatsOf(taken, |taken|) + KnownOf(rows, firsts, |firsts|)
  }

  function LimitError(c: Counts): Option<UploadError> {
    if c.certificates > MAX_CERTIFICATES then Some(CertificateLimit)
    else if c.Evidence() > MAX_REVOCATION_EVIDENCE then Some(EvidenceLimit)
    else if c.entries > MAX_REVOCATION_ENTRIES then Some(EntryLimit)
    else None
  }

  /** What a batch does to the rows of an open set. */
  function Upload(dec: Decoder, rows: Rows, items: seq<Submission>): Uploaded {
    var taken := TakenOf(dec, items, |items|);
    var added := NewIn(dec, rows, items);
    var counts := CountsPlus(CountsOf(rows), added, |added|);
    if |items| > MAX_BATCH_OBJECTS then Refused(BatchTooLong)
    else if BytesOf(taken, |taken|) > MAX_BATCH_BYTES then Refused(BatchTooLarge)
    else if LimitError(counts).Some? then Refused(LimitError(counts).value)
    else
      Stored(InsertAll(rows, added, |added|),
             Receipt(SortNames(NamesOf(added)), SortNames(NamesOf(DuplicatesIn(dec, rows, items))),
                     TurnedOf(dec, items, |items|), counts))
  }
}
