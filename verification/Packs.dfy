/** Evidence packs: how the API builds them (app/api.py, phase 2 of `adjudicate`) and when
    the offline verifier accepts them (app/verify.py). */
module Packs {
  import opened Basics
  import opened Certificates
  import opened Worlds
  import opened Shrinking
  import opened Reports
  import opened Inputs
  import opened StoredObjects
  import Engines
  import Verdicts

  /** The library functions in play, and the digests of manifests and adjudications. */
  datatype Environment = Environment(
    dec: Decoder, lib: Library, signing: Signing,
    manifestDigest: Manifest -> Token, adjudicationId: (Token, RawInput) -> Token)

  /** The result document: the report, bound to its input and evidence set. */
  datatype Result = Result(id: Token, digest: Token, input: RawInput, report: Report)

  datatype PackObject = PackObject(fp: Fp, kind: ObjectKind, at: Option<Instant>, der: Bytes)

  datatype Pack = Pack(
    version: int, id: Token, input: RawInput, digest: Token, manifest: Manifest,
    objects: seq<PackObject>, result: Result)

  datatype Computed = Failed | Computed(result: Result, active: set<Fp>)

  /** `run_engine` on stored objects: a result, or an error and no result. */
  ghost function EngineRun(env: Environment, rows: Rows, raw: RawInput, digest: Token): (run: Computed)
    requires Usable(raw, env.dec.texts)
    ensures run.Computed? ==> run.active <= rows.Keys
  {
    match AdjudicationOf(ObjectsOf(env.dec, rows), EngineInput(raw, env.dec.texts), env.lib, env.signing)
    case Decided(report, active) => Computed(Result(env.adjudicationId(digest, raw), digest, raw, report), active)
    case LeafNotFound => Failed
    case OutOfBudget => Failed
  }

  /** A leaf or an anchor written with a newline at its end is accepted as an input, but the
      engine finds no such leaf, and no certificate is such an anchor. */
  lemma NewlineInputs(env: Environment, rows: Rows, raw: RawInput, digest: Token)
    requires env.dec.Bounded() && WellFiled(env.dec, rows) && Usable(raw, env.dec.texts)
    ensures |raw.leaf| == 65 ==> EngineRun(env, rows, raw, digest) == Failed
    ensures forall a :: a in raw.anchors && |a| == 65 ==> FpOf(a) !in CertsIn(ObjectsOf(env.dec, rows))
  {
    hide FpOf, Decode, ReportOn, Settle;
    if |raw.leaf| == 65 {
      NewlineNamesNothing(env.dec, rows, raw.leaf);
    }
    forall a | a in raw.anchors && |a| == 65 ensures FpOf(a) !in ObjectsOf(env.dec, rows) {
      NewlineNamesNothing(env.dec, rows, a);
    }
  }

  // ----- Building --------------------------------------------------------------------------

  function PackObjectsOf(rows: Rows, fps: seq<Fp>): seq<PackObject>
    requires forall fp :: fp in fps ==> fp in rows
  {
    seq(|fps|, i requires 0 <= i < |fps| => PackObject(fps[i], rows[fps[i]].kind, rows[fps[i]].at, rows[fps[i]].der))
  }

  /** The pack for a result on the rows of a sealed set. */
  function BuiltPack(rows: Rows, manifest: Manifest, result: Result, active: set<Fp>): Pack
    requires active <= rows.Keys
  {
    Pack(1, result.id, result.input, result.digest, manifest, PackObjectsOf(rows, Ascending(active)), result)
  }

  /** Phase 2 of `adjudicate`: the engine is run and the touched objects are collected. */
  method ComputePack(env: Environment, rows: Rows, raw: RawInput, digest: Token, manifest: Manifest)
    returns (pack: Option<Pack>)
    requires Usable(raw, env.dec.texts) && WellFiled(env.dec, rows)
    ensures match EngineRun(env, rows, raw, digest)
            case Failed => pack == None
            case Computed(result, active) => pack == Some(BuiltPack(rows, manifest, result, active))
  {
    hide AdjudicationOf, CertsIn, EngineInput, ObjectsOf, PackObjectsOf, Usable, WellFiled, ReportOn;
    var input := EngineInput(raw, env.dec.texts);
    var objects := ObjectsOf(env.dec, rows);
    ObjectsOfKept(env.dec, rows, {});
    var engine := new Engines.Engine(objects, input, env.lib, env.signing);
    var outcome := engine.Run();
    if !outcome.Decided? {
      return None;
    }
    var id := env.adjudicationId(digest, raw);
    var collected := CollectObjects(rows, Ascending(outcome.active));
    pack := Some(Pack(1, id, raw, digest, manifest, collected, Result(id, digest, raw, outcome.report)));
  }

  /** The loop that copies the touched objects into an evidence pack. */
  method CollectObjects(rows: Rows, fps: seq<Fp>) returns (collected: seq<PackObject>)
    requires forall fp :: fp in fps ==> fp in rows
    ensures collected == PackObjectsOf(rows, fps)
  {
    collected := [];
    for i := 0 to |fps|
      invariant collected == PackObjectsOf(rows, fps)[..i]
    {
      assert fps[i] in fps;
      var row := rows[fps[i]];
      collected := collected + [PackObject(fps[i], row.kind, row.at, row.der)];
    }
  }

  // ----- Verifying --------------------------------------------------------------------------

  function RowOf(dec: Decoder, o: PackObject): Row {
    var item := Decode(dec, o.kind, o.der, o.at);
    Row(o.kind, o.der, o.at, if item.Some? then EntryCount(item.value) else 0)
  }

  /** The first `n` objects of a pack by fingerprint. */
  function PackRows(dec: Decoder, objects: seq<PackObject>, n: nat): Rows
    requires n <= |objects|
  {
    if n == 0 then map[] else PackRows(dec, objects, n - 1)[objects[n - 1].fp := RowOf(dec, objects[n - 1])]
  }

  function Fingerprints(objects: seq<PackObject>): (r: seq<Fp>)
    ensures |r| == |objects|
  {
    seq(|objects|, i requires 0 <= i < |objects| => objects[i].fp)
  }

  ghost predicate ObjectOk(dec: Decoder, o: PackObject) {
    dec.fingerprint(o.der) == o.fp && Decode(dec, o.kind, o.der, o.at).Some?
  }

  /** The last line of a manifest about an object: the one its index keeps. */
  function LineFor(entries: seq<Line>, fp: Fp): Option<Line> {
    if entries == [] then None
    else if entries[|entries| - 1].fp == fp then Some(entries[|entries| - 1])
    else LineFor(entries[..|entries| - 1], fp)
  }

  ghost predicate CoveredBy(entries: seq<Line>, o: PackObject) {
    LineFor(entries, o.fp) == Some(Line(o.fp, o.kind, o.at))
  }

  /** What the verifier accepts. */
  ghost predicate Accepts(env: Environment, pack: Pack) {
    && pack.version == 1
    && (forall o :: o in pack.objects ==> ObjectOk(env.dec, o))
    && StrictlyAscending(Fingerprints(pack.objects))
    && env.manifestDigest(pack.manifest) == pack.digest
    && (forall o :: o in pack.objects ==> CoveredBy(pack.manifest.entries, o))
    && Normalized(pack.input, env.dec.texts) == Normal(pack.input)
    && env.adjudicationId(pack.digest, pack.input) == pack.id == pack.result.id
    && Reproduced(env, pack)
  }

  /** The engine, run on the pack's objects alone, touches all of them and gives the recorded result. */
  ghost predicate Reproduced(env: Environment, pack: Pack) {
    var rows := PackRows(env.dec, pack.objects, |pack.objects|);
    Usable(pack.input, env.dec.texts)
    && EngineRun(env, rows, pack.input, pack.digest) == Computed(pack.result, rows.Keys)
  }

  lemma NormalIsUsable(raw: RawInput, texts: Texts)
    requires FirstError(raw, texts) == None
    ensures Usable(raw, texts)
  {
  }

  // ----- Built packs are accepted ---------------------------------------------------------------

  lemma {:induction false} PackRowsOfBuilt(dec: Decoder, rows: Rows, fps: seq<Fp>, n: nat)
    requires n <= |fps| && WellFiled(dec, rows) && forall fp :: fp in fps ==> fp in rows
    ensures PackRows(dec, PackObjectsOf(rows, fps), n) == KeepRows(rows, Elements(fps[..n]))
  {
    if n > 0 {
      PackRowsOfBuilt(dec, rows, fps, n - 1);
      assert fps[..n] == fps[..n - 1] + [fps[n - 1]];
      assert fps[n - 1] in fps && RowOk(dec, fps[n - 1], rows[fps[n - 1]]);
    }
  }

  lemma {:induction false} LineForUnique(entries: seq<Line>, e: Line)
    requires e in entries && forall d :: d in entries && d.fp == e.fp ==> d == e
    ensures LineFor(entries, e.fp) == Some(e)
  {
    var n := |entries| - 1;
    assert entries == entries[..n] + [entries[n]];
    if entries[n].fp != e.fp {
      LineForUnique(entries[..n], e);
    } else {
      assert entries[n] in entries;
    }
  }

  lemma BuiltObjectsAreCovered(dec: Decoder, rows: Rows, active: set<Fp>, o: PackObject)
    requires WellFiled(dec, rows) && active <= rows.Keys && o in PackObjectsOf(rows, Ascending(active))
    ensures ObjectOk(dec, o) && CoveredBy(ManifestOf(rows).entries, o)
  {
    assert o.fp in Ascending(active) && o.fp in rows && RowOk(dec, o.fp, rows[o.fp]);
    var entries, e := ManifestOf(rows).entries, Line(o.fp, o.kind, o.at);
    EntriesListRows(rows, e);
    forall d | d in entries && d.fp == e.fp ensures d == e {
      EntriesListRows(rows, d);
    }
    LineForUnique(entries, e);
  }

  /** The rerun on a built pack's own objects is the run it was built from. */
  lemma BuiltPackIsReproduced(env: Environment, rows: Rows, raw: RawInput, manifest: Manifest, digest: Token)
    requires Usable(raw, env.dec.texts) && WellFiled(env.dec, rows)
    ensures match EngineRun(env, rows, raw, digest)
            case Failed => true
            case Computed(result, active) => Reproduced(env, BuiltPack(rows, manifest, result, active))
  {
    hide AdjudicationOf, CertsIn, EngineInput, ObjectsOf, WellFiled, PackRows, PackObjectsOf, Usable;
    var run := EngineRun(env, rows, raw, digest);
    if run.Computed? {
      var objects, fps := ObjectsOf(env.dec, rows), Ascending(run.active);
      Verdicts.SelfContained(objects, EngineInput(raw, env.dec.texts), env.lib, env.signing);
      ObjectsOfKept(env.dec, rows, run.active);
      assert fps[..|fps|] == fps && Elements(fps) == run.active;
      PackRowsOfBuilt(env.dec, rows, fps, |fps|);
      assert KeepRows(rows, run.active).Keys == run.active;
      assert |PackObjectsOf(rows, fps)| == |fps| by {
        PackObjectsLength(rows, fps);
      }
    }
  }

  lemma PackObjectsLength(rows: Rows, fps: seq<Fp>)
    requires forall fp :: fp in fps ==> fp in rows
    ensures |PackObjectsOf(rows, fps)| == |fps| && Fingerprints(PackObjectsOf(rows, fps)) == fps
  {
  }

  /** A pack the API builds for a sealed set and an input it can read is accepted exactly when
      the input is its own normal form. */
  lemma BuiltPackIsAccepted(env: Environment, rows: Rows, raw: RawInput)
    requires WellFiled(env.dec, rows) && Usable(raw, env.dec.texts)
    ensures var digest := env.manifestDigest(ManifestOf(rows));
            match EngineRun(env, rows, raw, digest)
            case Failed => true
            case Computed(result, active) =>
              Accepts(env, BuiltPack(rows, ManifestOf(rows), result, active))
              <==> Normalized(raw, env.dec.texts) == Normal(raw)
  {
    hide AdjudicationOf, CertsIn, EngineInput, ObjectsOf, WellFiled, Usable, Normalized, CoveredBy,
        ObjectOk, Reproduced, ManifestOf, PackObjectsOf;
    var manifest := ManifestOf(rows);
    var digest := env.manifestDigest(manifest);
    BuiltPackIsReproduced(env, rows, raw, manifest, digest);
    var run := EngineRun(env, rows, raw, digest);
    if run.Computed? {
      var pack := BuiltPack(rows, manifest, run.result, run.active);
      forall o | o in pack.objects ensures ObjectOk(env.dec, o) && CoveredBy(manifest.entries, o) {
        BuiltObjectsAreCovered(env.dec, rows, run.active, o);
      }
      PackObjectsLength(rows, Ascending(run.active));
    }
  }

  lemma UsableWhenNormal(raw: RawInput, texts: Texts)
    requires Normalized(raw, texts).Normal?
    ensures Usable(raw, texts)
  {
    NormalIsUsable(raw, texts);
  }

  // ----- Accepted packs cannot differ ------------------------------------------------------------

  lemma {:induction false} SameObjects(dec: Decoder, a: seq<PackObject>, b: seq<PackObject>, entries: seq<Line>)
    requires dec.Sound() && Fingerprints(a) == Fingerprints(b)
    requires forall o :: o in a ==> ObjectOk(dec, o) && CoveredBy(entries, o)
    requires forall o :: o in b ==> ObjectOk(dec, o) && CoveredBy(entries, o)
    ensures a == b
  {
    assert |a| == |Fingerprints(a)| == |Fingerprints(b)| == |b|;
    forall i | 0 <= i < |a| ensures a[i] == b[i] {
      assert Fingerprints(a)[i] == a[i].fp && Fingerprints(b)[i] == b[i].fp;
      assert a[i] in a && b[i] in b;
      assert ObjectOk(dec, a[i]) && ObjectOk(dec, b[i]);
      assert CoveredBy(entries, a[i]) && CoveredBy(entries, b[i]);
    }
  }

  /** Of all packs about one evidence set, one input and one list of objects, the verifier
      accepts at most one: no DER, receipt time, rule conclusion or verdict in it can be other. */
  lemma AcceptedPacksAreDetermined(env: Environment, p: Pack, q: Pack)
    requires env.dec.Sound() && (forall m, n :: env.manifestDigest(m) == env.manifestDigest(n) ==> m == n)
    requires Accepts(env, p) && Accepts(env, q)
    requires p.digest == q.digest && p.input == q.input && Fingerprints(p.objects) == Fingerprints(q.objects)
    ensures p == q
  {
    hide EngineRun, PackRows, Usable, Normalized, CoveredBy, ObjectOk;
    assert p.manifest == q.manifest;
    SameObjects(env.dec, p.objects, q.objects, p.manifest.entries);
  }
}
