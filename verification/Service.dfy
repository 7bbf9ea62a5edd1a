/** The request handlers (app/api.py) on the database: each does what its step of the protocol says. */
module Services {
  import opened Basics
  import opened Certificates
  import opened Worlds
  import opened Inputs
  import opened StoredObjects
  import opened Uploads
  import opened UploadHistories
  import opened Packs
  import opened Protocol
  import opened Stores

  // ----- The loops of `add_objects` ---------------------------------------------------------

  /** The parsing loop: every item is taken or turned away. */
  method ScreenAll(dec: Decoder, items: seq<Submission>) returns (parsed: seq<Parsed>, rejected: seq<(nat, ItemError)>)
    ensures parsed == TakenOf(dec, items, |items|) && rejected == TurnedOf(dec, items, |items|)
  {
    hide Screen;
    parsed, rejected := [], [];
    for idx := 0 to |items|
      invariant parsed == TakenOf(dec, items, idx) && rejected == TurnedOf(dec, items, idx)
    {
      match Screen(dec, items[idx])
      case Taken(p) => parsed := parsed + [p];
      case Turned(e) => rejected := rejected + [(idx, e)];
    }
  }

  method TotalBytes(parsed: seq<Parsed>) returns (total: nat)
    ensures total == BytesOf(parsed, |parsed|)
  {
    total := 0;
    for i := 0 to |parsed|
      invariant total == BytesOf(parsed, i)
    {
      total := total + |parsed[i].row.der|;
    }
  }

  /** The first submission of each object in the batch, and the duplicates within it. */
  method Dedupe(parsed: seq<Parsed>) returns (unique: seq<Parsed>, duplicates: seq<Parsed>)
    ensures unique == FirstsOf(parsed, |parsed|) && duplicates == RepeatsOf(parsed, |parsed|)
  {
    var seen: set<Fp> := {};
    unique, duplicates := [], [];
    for i := 0 to |parsed|
      invariant forall fp :: fp in seen <==> Has(parsed, i, fp)
      invariant unique == FirstsOf(parsed, i) && duplicates == RepeatsOf(parsed, i)
    {
      if parsed[i].fp in seen {
        duplicates := duplicates + [parsed[i]];
      } else {
        seen := seen + {parsed[i].fp};
        unique := unique + [parsed[i]];
      }
    }
  }

  /** The objects the store has already, and the new ones. */
  method Split(rows: Rows, existing: set<Fp>, unique: seq<Parsed>) returns (known: seq<Parsed>, added: seq<Parsed>)
    requires forall p :: p in unique ==> (p.fp in existing <==> p.fp in rows)
    ensures known == KnownOf(rows, unique, |unique|) && added == NewOf(rows, unique, |unique|)
  {
    known, added := [], [];
    for i := 0 to |unique|
      invariant known == KnownOf(rows, unique, i) && added == NewOf(rows, unique, i)
    {
      assert unique[i] in unique;
      if unique[i].fp in existing {
        known := known + [unique[i]];
      } else {
        added := added + [unique[i]];
      }
    }
  }

  /** The counts a set would have with the new objects. */
  method Project(counts: Counts, added: seq<Parsed>) returns (projected: Counts)
    ensures projected == CountsPlus(counts, added, |added|)
  {
    projected := counts;
    for i := 0 to |added|
      invariant projected == CountsPlus(counts, added, i)
    {
      projected := CountsWith(projected, added[i].row);
    }
  }

  function FpsOf(items: seq<Parsed>): (fps: seq<Fp>)
    ensures forall fp :: fp in fps <==> exists p :: p in items && p.fp == fp
  {
    var fps := seq(|items|, i requires 0 <= i < |items| => items[i].fp);
    assert forall fp :: fp in fps ==> exists p :: p in items && p.fp == fp by {
      forall fp | fp in fps ensures exists p :: p in items && p.fp == fp {
        var i :| 0 <= i < |fps| && fps[i] == fp;
        assert items[i] in items;
      }
    }
    assert forall p :: p in items ==> p.fp in fps by {
      forall p | p in items ensures p.fp in fps {
        var i :| 0 <= i < |items| && items[i] == p;
        assert fps[i] == p.fp;
      }
    }
    fps
  }

  class Service {
    const store: Store
    const env: Environment
    const digestOf: (RequestId, Call) -> Token

    constructor (store: Store, env: Environment, digestOf: (RequestId, Call) -> Token)
      ensures this.store == store && this.env == env && this.digestOf == digestOf
    {
      this.store, this.env, this.digestOf := store, env, digestOf;
    }

    /** The start of every transaction under a request id. */
    method Lookup(rid: RequestId, hash: Token) returns (reply: Option<Reply>)
      ensures reply == if rid in store.requests then Some(Replay(store.Contents(), rid, hash)) else None
    {
      if rid in store.requests {
        var row := store.requests[rid];
        if row.hash != hash {
          return Some(Error(IdempotencyConflict));
        }
        return Some(Replied(row.status, row.body));
      }
      reply := None;
    }

    method CreateEvidenceSet(rid: RequestId, title: Option<string>, freshId: SetId) returns (reply: Reply)
      modifies store
      ensures var t := old(store.Contents());
              (store.Contents(), reply)
                  == Idempotent(t, rid, digestOf(rid, CreateCall(title)), CreateSet(t, freshId, rid))
    {
      var hash := digestOf(rid, CreateCall(title));
      var replay := Lookup(rid, hash);
      if replay.Some? {
        return replay.value;
      }
      var ok := store.CreateSet(freshId, rid);
      if !ok {
        return Error(IdTaken);
      }
      store.PutRequest(rid, hash, 201, SetCreated(freshId));
      reply := Replied(201, SetCreated(freshId));
    }

    /** The insertion loop. */
    method InsertNew(id: SetId, added: seq<Parsed>)
      modifies store`objects
      ensures store.Contents() == WithRows(old(store.Contents()), id, InsertAll(old(store.RowsOf(id)), added, |added|))
    {
      ghost var t, rows := store.Contents(), store.RowsOf(id);
      for i := 0 to |added|
        invariant store.Contents() == WithRows(t, id, InsertAll(rows, added, i))
        invariant store.RowsOf(id) == InsertAll(rows, added, i)
      {
        store.InsertObject(id, added[i].fp, added[i].row);
      }
    }

    /** The handler of `add_objects`, inside its transaction. */
    method HandleAdd(id: SetId, items: seq<Submission>) returns (error: Option<ApiError>, body: Option<Body>)
      modifies store`objects
      ensures match Protocol.AddObjects(env.dec, old(store.Contents()), id, items)
              case Raised(e) => error == Some(e) && store.Contents() == old(store.Contents())
              case Done(after, _, b) => error == None && body == Some(b) && store.Contents() == after
    {
      hide CountsOf, WithRows, InsertAll, TakenOf, TurnedOf, FirstsOf, RepeatsOf, KnownOf, NewOf, CountsPlus,
          BytesOf, SortNames, NamesOf;
      error, body := None, None;
      if id !in store.sets {
        return Some(SetNotFound), None;
      }
      if store.sets[id].SealedSet? {
        return Some(SetIsSealed), None;
      }
      if |items| > MAX_BATCH_OBJECTS {
        return Some(LimitExceeded(BatchTooLong)), None;
      }
      var rows := store.RowsOf(id);
      var parsed, rejected := ScreenAll(env.dec, items);
      var total := TotalBytes(parsed);
      if total > MAX_BATCH_BYTES {
        return Some(LimitExceeded(BatchTooLarge)), None;
      }
      var unique, repeats := Dedupe(parsed);
      var existing := store.ExistingFingerprints(id, FpsOf(unique));
      var known, added := Split(rows, existing, unique);
      var projected := Project(CountsOf(rows), added);
      if projected.certificates > MAX_CERTIFICATES {
        return Some(LimitExceeded(CertificateLimit)), None;
      }
      if projected.Evidence() > MAX_REVOCATION_EVIDENCE {
        return Some(LimitExceeded(EvidenceLimit)), None;
      }
      if projected.entries > MAX_REVOCATION_ENTRIES {
        return Some(LimitExceeded(EntryLimit)), None;
      }
      UploadMeans(env.dec, rows, items);
      InsertNew(id, added);
      WithRowsReads(old(store.Contents()), id, InsertAll(rows, added, |added|));
      var counts := CountsOf(store.RowsOf(id));
      body := Some(ItemsAdded(id,
          Receipt(SortNames(NamesOf(added)), SortNames(NamesOf(repeats + known)), rejected, counts)));
    }

    lemma WithRowsReads(t: Tables, id: SetId, rows: Rows)
      ensures RowsIn(WithRows(t, id, rows), id) == rows
    {
    }

    method AddObjects(rid: RequestId, id: SetId, items: seq<Submission>) returns (reply: Reply)
      modifies store
      ensures var t := old(store.Contents());
              (store.Contents(), reply) ==
                Idempotent(t, rid, digestOf(rid, AddRequest(env.dec.texts, id, items)),
                    Protocol.AddObjects(env.dec, t, id, items))
    {
      hide Upload, WithRows;
      var hash := digestOf(rid, AddRequest(env.dec.texts, id, items));
      var replay := Lookup(rid, hash);
      if replay.Some? {
        return replay.value;
      }
      var error, body := HandleAdd(id, items);
      if error.Some? {
        return Error(error.value);
      }
      AddLeavesRequests(env.dec, old(store.Contents()), id, items);
      store.PutRequest(rid, hash, 200, body.value);
      reply := Replied(200, body.value);
    }

    lemma AddLeavesRequests(dec: Decoder, t: Tables, id: SetId, items: seq<Submission>)
      ensures var h := Protocol.AddObjects(dec, t, id, items);
              h.Done? ==> h.tables.requests == t.requests && h.status == 200
    {
      hide Upload;
    }

    method Seal(rid: RequestId, id: SetId) returns (reply: Reply)
      modifies store
      ensures var t := old(store.Contents());
              (store.Contents(), reply) == Idempotent(t, rid, digestOf(rid, SealCall(id)), SealObjects(env, t, id))
    {
      hide ManifestOf;
      var hash := digestOf(rid, SealCall(id));
      var replay := Lookup(rid, hash);
      if replay.Some? {
        return replay.value;
      }
      if id !in store.sets {
        return Error(SetNotFound);
      }
      var row := store.sets[id];
      var body: Body;
      if row.SealedSet? {
        body := SetSealed(id, row.digest, row.manifest.counts);
      } else {
        var manifest := ManifestOf(store.RowsOf(id));
        var digest := env.manifestDigest(manifest);
        store.SealSet(id, digest, manifest);
        body := SetSealed(id, digest, manifest.counts);
      }
      store.PutRequest(rid, hash, 200, body);
      reply := Replied(200, body);
    }

    /** Phase 1 of `adjudicate`, on a normalized input. */
    method BeginAdjudication(rid: RequestId, id: SetId, input: RawInput) returns (client: Client, reply: Option<Reply>)
      modifies store
      ensures (store.Contents(), client, reply) ==
              Begin(env, old(store.Contents()), rid, digestOf(rid, AdjudicateCall(id, input)), id, input)
    {
      var hash := digestOf(rid, AdjudicateCall(id, input));
      client := Idle;
      reply := Lookup(rid, hash);
      if reply.Some? {
        return;
      }
      if id !in store.sets {
        return Idle, Some(Error(SetNotFound));
      }
      var row := store.sets[id];
      if row.OpenSet? {
        return Idle, Some(Error(SetNotSealed));
      }
      var adjId := env.adjudicationId(row.digest, input);
      if adjId in store.adjudications {
        var body := Adjudicated(store.adjudications[adjId].result);
        store.PutRequest(rid, hash, 200, body);
        return Idle, Some(Replied(200, body));
      }
      client := Pinned(Pin(rid, hash, id, input, row.digest, row.manifest, adjId));
    }

    /** Phase 2 of `adjudicate`. */
    method ComputeAdjudication(pin: Pin) returns (client: Client, reply: Option<Reply>)
      requires Usable(pin.input, env.dec.texts) && WellFiled(env.dec, store.RowsOf(pin.setId))
      ensures (client, reply) == Compute(env, store.Contents(), pin)
    {
      hide EngineRun, Usable, WellFiled, CertsIn, ObjectsOf;
      var pack := ComputePack(env, store.RowsOf(pin.setId), pin.input, pin.digest, pin.manifest);
      if pack == None {
        return Idle, Some(Error(EngineFailed));
      }
      client, reply := Ready(pin, pack.value), None;
    }

    /** Phase 3 of `adjudicate`. */
    method FinishAdjudication(pin: Pin, pack: Pack) returns (reply: Reply)
      modifies store
      ensures (store.Contents(), reply) == Finish(old(store.Contents()), pin, pack)
    {
      var replay := Lookup(pin.rid, pin.hash);
      if replay.Some? {
        return replay.value;
      }
      var body: Body;
      if pin.id in store.adjudications {
        body := Adjudicated(store.adjudications[pin.id].result);
      } else {
        var ok := store.PutAdjudication(pin.id,
            AdjudicationRow(pin.rid, pin.setId, pin.digest, pin.input, pack.result, pack));
        if !ok {
          return Error(PersistenceRace);
        }
        body := Adjudicated(pack.result);
      }
      store.PutRequest(pin.rid, pin.hash, 201, body);
      reply := Replied(201, body);
    }
  }
}
