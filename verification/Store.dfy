/** The database (app/store.py): four tables and the statements on them. */
module Stores {
  import opened Basics
  import opened Certificates
  import opened StoredObjects
  import opened Uploads
  import opened Protocol

  class Store {
    var sets: map<SetId, SetRow>
    var objects: map<SetId, Rows>
    var requests: map<RequestId, RequestRow>
    var adjudications: map<Token, AdjudicationRow>

    constructor ()
      ensures Contents() == EMPTY
    {
      sets, objects, requests, adjudications := map[], map[], map[], map[];
    }

    ghost function Contents(): Tables
      reads this
    {
      Tables(sets, objects, requests, adjudications)
    }

    function RowsOf(id: SetId): Rows
      reads this
    {
      if id in objects then objects[id] else map[]
    }

    /** Fails when the id is taken. */
    method CreateSet(id: SetId, rid: RequestId) returns (ok: bool)
      modifies this`sets
      ensures ok <==> id !in old(sets)
      ensures sets == if ok then old(sets)[id := OpenSet(rid)] else old(sets)
    {
      ok := id !in sets;
      if ok {
        sets := sets[id := OpenSet(rid)];
      }
    }

    method SealSet(id: SetId, digest: Token, manifest: Manifest)
      requires id in sets
      modifies this`sets
      ensures sets == old(sets)[id := SealedSet(old(sets)[id].createdBy, digest, manifest)]
    {
      sets := sets[id := SealedSet(sets[id].createdBy, digest, manifest)];
    }

    /** `existing_fingerprints`: asks for 500 fingerprints at a time. */
    method ExistingFingerprints(id: SetId, fps: seq<Fp>) returns (found: set<Fp>)
      ensures forall fp :: fp in found <==> fp in fps && fp in RowsOf(id)
    {
      found := {};
      var i := 0;
      while i < |fps|
        invariant 0 <= i
        invariant forall fp :: fp in found <==> fp in fps[..if i < |fps| then i else |fps|] && fp in RowsOf(id)
        decreases |fps| - i
      {
        var end := if i + CHUNK < |fps| then i + CHUNK else |fps|;
        var chunk := fps[i..end];
        assert fps[..end] == fps[..i] + chunk;
        found := found + (set fp | fp in chunk && fp in RowsOf(id));
        i := i + CHUNK;
      }
      assert fps[..|fps|] == fps;
    }

    /** `INSERT OR IGNORE`. */
    method InsertObject(id: SetId, fp: Fp, row: Row)
      modifies this`objects
      ensures Contents() == WithRows(old(Contents()), id,
                                     if fp in old(RowsOf(id)) then old(RowsOf(id)) else old(RowsOf(id))[fp := row])
    {
      if fp !in RowsOf(id) {
        assert fp in RowsOf(id)[fp := row];
        objects := objects[id := RowsOf(id)[fp := row]];
      }
    }

    method PutRequest(rid: RequestId, hash: Token, status: nat, body: Body)
      requires rid !in requests
      modifies this`requests
      ensures Contents() == WithRequest(old(Contents()), rid, hash, status, body)
    {
      requests := requests[rid := RequestRow(hash, status, body)];
    }

    /** Fails when the id, or the request id in another row, is there already. */
    method PutAdjudication(id: Token, row: AdjudicationRow) returns (ok: bool)
      modifies this`adjudications
      ensures ok <==> id !in old(adjudications) && !RequestUsed(old(Contents()), row.request)
      ensures adjudications == if ok then old(adjudications)[id := row] else old(adjudications)
    {
      assert RequestUsed(Contents(), row.request) <==>
             exists x :: x in adjudications && adjudications[x].request == row.request;
      ok := id !in adjudications && forall x :: x in adjudications ==> adjudications[x].request != row.request;
      if ok {
        adjudications := adjudications[id := row];
      }
    }
  }
}
