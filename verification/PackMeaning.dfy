/** What it means that the verifier accepts an evidence pack: of its objects, that they are those of
    the evidence set, each once; of its verdict, what it says about them. */
module PackMeaning {
  import opened Basics
  import opened Worlds
  import opened Reports
  import opened Inputs
  import opened StoredObjects
  import opened Packs
  import ProtocolResults

  lemma {:induction false} LineIsListed(entries: seq<Line>, fp: Fp)
    ensures LineFor(entries, fp).Some? ==> LineFor(entries, fp).value in entries
  {
    if entries != [] {
      LineIsListed(entries[..|entries| - 1], fp);
    }
  }

  /** Every object of an accepted pack is an object of any set with the pack's digest: with its type,
      time of receipt and DER. They come in fingerprint order, each once. */
  lemma AcceptedObjectsMean(env: Environment, pack: Pack, rows: Rows)
    requires Accepts(env, pack) && env.dec.Sound() && WellFiled(env.dec, rows)
    requires forall m, n :: env.manifestDigest(m) == env.manifestDigest(n) ==> m == n
    requires env.manifestDigest(ManifestOf(rows)) == pack.digest
    ensures forall o :: o in pack.objects ==>
              o.fp in rows && rows[o.fp].kind == o.kind && rows[o.fp].at == o.at && rows[o.fp].der == o.der
    ensures forall i, j :: 0 <= i < j < |pack.objects| ==> pack.objects[i].fp < pack.objects[j].fp
  {
    hide ManifestOf, Reproduced, Normalized;
    var fps := Fingerprints(pack.objects);
    assert forall i :: 0 <= i < |pack.objects| ==> fps[i] == pack.objects[i].fp;
    assert pack.manifest == ManifestOf(rows);
    forall o | o in pack.objects
      ensures o.fp in rows && rows[o.fp].kind == o.kind && rows[o.fp].at == o.at && rows[o.fp].der == o.der
    {
      assert CoveredBy(pack.manifest.entries, o) && ObjectOk(env.dec, o);
      LineIsListed(pack.manifest.entries, o.fp);
      EntriesListRows(rows, Line(o.fp, o.kind, o.at));
      assert RowOk(env.dec, o.fp, rows[o.fp]);
    }
  }

  /** The objects of a pack, as the parsers read them. */
  function ObjectsOfPack(env: Environment, pack: Pack): Objects {
    ObjectsOf(env.dec, PackRows(env.dec, pack.objects, |pack.objects|))
  }

  /** The verdict of an accepted pack is bounded by the passable and the safe paths among the pack's
      objects, and right if their certificates are coherent, for the question that the texts of the
      pack's input pose. */
  lemma AcceptedVerdictsMean(env: Environment, pack: Pack, q: Question)
    requires Accepts(env, pack) && Poses(pack.input, env.dec.texts, q)
    ensures var objects, verdict := ObjectsOfPack(env, pack), pack.result.report.verdict;
            && ProtocolResults.VerdictBounded(env, objects, pack.input, q, verdict)
            && (Coherent(CertsIn(objects)) ==> ProtocolResults.VerdictRight(env, objects, pack.input, q, verdict))
  {
    hide Normalized, Usable, AdjudicationOf, EngineInput, ObjectsOf, CertsIn, Coherent, PackRows,
        ProtocolResults.VerdictBounded, ProtocolResults.VerdictRight, Poses;
    ProtocolResults.VerdictsMean(env, ObjectsOfPack(env, pack), pack.input, q);
  }
}
