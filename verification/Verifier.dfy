/** The offline verifier (app/verify.py, `verify_pack`): checks a pack step by step and logs
    the first failure. */
module Verifiers {
  import opened Basics
  import opened Worlds
  import opened Reports
  import opened Inputs
  import opened StoredObjects
  import opened Packs
  import Engines

  datatype LogLine = Pass(check: Check) | Fail(check: Check)

  datatype Check =
    | PackVersion | PackObjects | SortedObjects | ManifestDigest | Coverage
    | NormalInput | AdjudicationId | ResultId | Rerun | TouchedObjects | SameResult

  class CheckLog {
    var lines: seq<LogLine>
    var failures: nat

    constructor ()
      ensures lines == [] && failures == 0
    {
      lines, failures := [], 0;
    }

    method Ok(check: Check)
      modifies this
      ensures lines == old(lines) + [Pass(check)] && failures == old(failures)
    {
      lines := lines + [Pass(check)];
    }

    method Failed(check: Check)
      modifies this
      ensures lines == old(lines) + [Fail(check)] && failures == old(failures) + 1
    {
      lines := lines + [Fail(check)];
      failures := failures + 1;
    }
  }

  /** Fingerprint and decoding of every object; the rows they make. */
  method CheckObjects(dec: Decoder, objects: seq<PackObject>) returns (ok: bool, rows: Rows, fps: seq<Fp>)
    ensures ok <==> forall o :: o in objects ==> ObjectOk(dec, o)
    ensures ok ==> rows == PackRows(dec, objects, |objects|) && fps == Fingerprints(objects)
  {
    hide Decode;
    rows, fps := map[], [];
    for i := 0 to |objects|
      invariant forall k :: 0 <= k < i ==> ObjectOk(dec, objects[k])
      invariant rows == PackRows(dec, objects, i) && fps == Fingerprints(objects)[..i]
    {
      var o := objects[i];
      if dec.fingerprint(o.der) != o.fp || Decode(dec, o.kind, o.der, o.at) == None {
        assert !ObjectOk(dec, o) && o in objects;
        return false, rows, fps;
      }
      rows := rows[o.fp := RowOf(dec, o)];
      fps := fps + [o.fp];
    }
    ok := true;
  }

  /** The manifest's index: for each fingerprint the last line about it. */
  method IndexManifest(entries: seq<Line>) returns (index: map<Fp, Line>)
    ensures forall fp :: (fp in index <==> LineFor(entries, fp).Some?)
                         && (fp in index ==> LineFor(entries, fp) == Some(index[fp]))
  {
    index := map[];
    for i := 0 to |entries|
      invariant forall fp :: (fp in index <==> LineFor(entries[..i], fp).Some?)
                             && (fp in index ==> LineFor(entries[..i], fp) == Some(index[fp]))
    {
      assert entries[..i + 1][..i] == entries[..i];
      index := index[entries[i].fp := entries[i]];
    }
    assert entries[..|entries|] == entries;
  }

  method CheckCoverage(entries: seq<Line>, objects: seq<PackObject>) returns (ok: bool)
    ensures ok <==> forall o :: o in objects ==> CoveredBy(entries, o)
  {
    var index := IndexManifest(entries);
    for i := 0 to |objects|
      invariant forall k :: 0 <= k < i ==> CoveredBy(entries, objects[k])
    {
      var o := objects[i];
      if o.fp !in index || index[o.fp].kind != o.kind || index[o.fp].at != o.at {
        assert LineFor(entries, o.fp).Some? ==> LineFor(entries, o.fp).value == index[o.fp];
        assert !CoveredBy(entries, o) && o in objects;
        return false;
      }
      LineForNames(entries, o.fp);
    }
    ok := true;
  }

  lemma {:induction false} LineForNames(entries: seq<Line>, fp: Fp)
    ensures LineFor(entries, fp).Some? ==> LineFor(entries, fp).value.fp == fp
  {
    if entries != [] {
      LineForNames(entries[..|entries| - 1], fp);
    }
  }

  /** The list equals its sorted set of members: it is in order, without duplicates. */
  method StrictlySorted(fps: seq<Fp>) returns (sorted: bool)
    ensures sorted <==> StrictlyAscending(fps)
  {
    sorted := fps == Ascending(Elements(fps));
    if StrictlyAscending(fps) {
      AscendingOfAscending(fps);
    }
  }

  /** `verify_pack`. A log that is handed in clean is still clean exactly when `Accepts` holds. */
  method VerifyPack(env: Environment, pack: Pack, log: CheckLog) returns (ok: bool)
    modifies log
    ensures log.failures == old(log.failures) + if Accepts(env, pack) then 0 else 1
    ensures ok <==> log.failures == 0
  {
    hide ObjectOk, CoveredBy, Normalized, Validated, AsJson, EngineRun, CertsIn, ObjectsOf, PackRows;
    if pack.version != 1 {
      log.Failed(PackVersion);
      return log.failures == 0;
    }
    var decoded, rows, fps := CheckObjects(env.dec, pack.objects);
    if !decoded {
      log.Failed(PackObjects);
      return log.failures == 0;
    }
    var sorted := StrictlySorted(fps);
    if !sorted {
      log.Failed(SortedObjects);
      return log.failures == 0;
    }
    log.Ok(PackObjects);
    if env.manifestDigest(pack.manifest) != pack.digest {
      log.Failed(ManifestDigest);
      return log.failures == 0;
    }
    log.Ok(ManifestDigest);
    var covered := CheckCoverage(pack.manifest.entries, pack.objects);
    if !covered {
      log.Failed(Coverage);
      return log.failures == 0;
    }
    log.Ok(Coverage);
    var checked := ValidateInput(AsJson(pack.input), env.dec.texts);
    ValidatedAsJson(pack.input, env.dec.texts);
    if checked != Normal(pack.input) {
      log.Failed(NormalInput);
      return log.failures == 0;
    }
    log.Ok(NormalInput);
    UsableWhenNormal(pack.input, env.dec.texts);
    var id := env.adjudicationId(pack.digest, pack.input);
    if id != pack.id {
      log.Failed(AdjudicationId);
      return log.failures == 0;
    }
    if pack.result.id != id {
      log.Failed(ResultId);
      return log.failures == 0;
    }
    log.Ok(AdjudicationId);
    var failed := RerunFails(env, pack, rows);
    if failed.Some? {
      log.Failed(failed.value);
      return log.failures == 0;
    }
    log.Ok(SameResult);
    ok := log.failures == 0;
  }

  /** The engine is run again on the objects of the evidence pack alone and its result compared. */
  method RerunFails(env: Environment, pack: Pack, rows: Rows) returns (failed: Option<Check>)
    requires Usable(pack.input, env.dec.texts) && env.adjudicationId(pack.digest, pack.input) == pack.result.id
    requires rows == PackRows(env.dec, pack.objects, |pack.objects|)
    ensures failed == None <==> Reproduced(env, pack)
  {
    hide AdjudicationOf, CertsIn, EngineInput, ObjectsOf, PackRows, Usable, ReportOn;
    var input := EngineInput(pack.input, env.dec.texts);
    var engine := new Engines.Engine(ObjectsOf(env.dec, rows), input, env.lib, env.signing);
    var outcome := engine.Run();
    if !outcome.Decided? {
      return Some(Rerun);
    }
    if outcome.active != rows.Keys {
      return Some(TouchedObjects);
    }
    if Result(pack.result.id, pack.digest, pack.input, outcome.report) != pack.result {
      return Some(SameResult);
    }
    failed := None;
  }
}
