/** What holds in every reachable state, however the steps of any number of instances interleave. */
module ProtocolSafety {
  import opened Certificates
  import opened Reports
  import opened Inputs
  import opened StoredObjects
  import opened Uploads
  import opened UploadHistories
  import opened Packs
  import opened Protocol
  import Json = CanonicalJson

  // ----- The invariant ------------------------------------------------------------------------

  /** The set is sealed with this digest and manifest, which are those of its current objects. */
  ghost predicate SealedAs(env: Environment, t: Tables, id: SetId, digest: Token, manifest: Manifest) {
    && id in t.sets && t.sets[id].SealedSet? && t.sets[id].digest == digest && t.sets[id].manifest == manifest
    && manifest == ManifestOf(RowsIn(t, id)) && digest == env.manifestDigest(manifest)
  }

  /** Every set is well filed and within the limits, and seals fit their sets. */
  ghost predicate SetsOk(env: Environment, t: Tables) {
    && (forall id :: id in t.objects ==> id in t.sets)
    && (forall id :: id in t.sets ==> SetOk(env, t, id))
  }

  ghost predicate SetOk(env: Environment, t: Tables, id: SetId)
    requires id in t.sets
  {
    && WellFiled(env.dec, RowsIn(t, id)) && WithinLimits(CountsOf(RowsIn(t, id)))
    && (t.sets[id].SealedSet? ==> SealedAs(env, t, id, t.sets[id].digest, t.sets[id].manifest))
  }

  /** The pack is what the engine makes of the set's current objects. */
  ghost predicate MadeFrom(env: Environment, rows: Rows, input: RawInput, digest: Token, pack: Pack) {
    Usable(input, env.dec.texts)
    && match EngineRun(env, rows, input, digest)
       case Failed => false
       case Computed(result, active) => pack == BuiltPack(rows, ManifestOf(rows), result, active)
  }

  ghost predicate RowFits(env: Environment, t: Tables, id: Token, row: AdjudicationRow) {
    && SealedAs(env, t, row.setId, row.digest, row.pack.manifest)
    && id == env.adjudicationId(row.digest, row.input)
    && MadeFrom(env, RowsIn(t, row.setId), row.input, row.digest, row.pack) && row.result == row.pack.result
    && row.request in t.requests
  }

  ghost predicate AdjudicationsOk(env: Environment, t: Tables) {
    forall id :: id in t.adjudications ==> RowFits(env, t, id, t.adjudications[id])
  }

  /** A stored response with a result is about a stored adjudication. */
  ghost predicate ResponsesOk(t: Tables) {
    forall rid :: rid in t.requests && t.requests[rid].body.Adjudicated? ==>
      var result := t.requests[rid].body.result;
      result.id in t.adjudications && t.adjudications[result.id].result == result
  }

  ghost predicate TablesOk(env: Environment, t: Tables) {
    SetsOk(env, t) && AdjudicationsOk(env, t) && ResponsesOk(t)
  }

  ghost predicate PinOk(env: Environment, t: Tables, pin: Pin) {
    && SealedAs(env, t, pin.setId, pin.digest, pin.manifest)
    && pin.id == env.adjudicationId(pin.digest, pin.input)
  }

  ghost predicate ClientOk(env: Environment, t: Tables, c: Client) {
    match c
    case Idle => true
    case Pinned(pin) => PinOk(env, t, pin)
    case Ready(pin, pack) => PinOk(env, t, pin) && MadeFrom(env, RowsIn(t, pin.setId), pin.input, pin.digest, pack)
  }

  ghost predicate StateOk(env: Environment, s: State) {
    TablesOk(env, s.tables) && forall c :: c in s.clients ==> ClientOk(env, s.tables, s.clients[c])
  }

  // ----- What a step leaves as it was -----------------------------------------------------------

  /** Sets do not vanish; sealed sets, stored responses and adjudications never change. */
  ghost predicate Kept(t: Tables, after: Tables) {
    && (forall id :: id in t.sets ==> id in after.sets)
    && (forall id :: id in t.sets && t.sets[id].SealedSet? ==>
          after.sets[id] == t.sets[id] && RowsIn(after, id) == RowsIn(t, id))
    && (forall rid :: rid in t.requests ==> rid in after.requests && after.requests[rid] == t.requests[rid])
    && (forall id :: id in t.adjudications ==>
          id in after.adjudications && after.adjudications[id] == t.adjudications[id])
  }

  lemma KeptTransitive(a: Tables, b: Tables, c: Tables)
    requires Kept(a, b) && Kept(b, c)
    ensures Kept(a, c)
  {
  }

  lemma SealedKept(env: Environment, t: Tables, after: Tables, id: SetId, digest: Token, manifest: Manifest)
    requires Kept(t, after) && SealedAs(env, t, id, digest, manifest)
    ensures SealedAs(env, after, id, digest, manifest) && RowsIn(after, id) == RowsIn(t, id)
  {
  }

  lemma ClientKept(env: Environment, t: Tables, after: Tables, c: Client)
    requires Kept(t, after) && ClientOk(env, t, c)
    ensures ClientOk(env, after, c)
  {
    hide Kept, SealedAs, MadeFrom;
    if !c.Idle? {
      SealedKept(env, t, after, c.pin.setId, c.pin.digest, c.pin.manifest);
    }
  }

  lemma AdjudicationsKept(env: Environment, t: Tables, after: Tables)
    requires Kept(t, after) && AdjudicationsOk(env, t) && after.adjudications == t.adjudications
    ensures AdjudicationsOk(env, after)
  {
    hide SealedAs, MadeFrom;
    forall id | id in after.adjudications ensures RowFits(env, after, id, after.adjudications[id]) {
      var row := t.adjudications[id];
      assert RowFits(env, t, id, row);
      SealedKept(env, t, after, row.setId, row.digest, row.pack.manifest);
    }
  }

  // ----- Transactions under a request id -------------------------------------------------------

  /** A handler leaves requests and adjudications alone and keeps the sets in order. */
  ghost predicate HandlerOk(env: Environment, t: Tables, h: Handled) {
    h.Done? ==>
      && h.tables.requests == t.requests && h.tables.adjudications == t.adjudications
      && Kept(t, h.tables) && SetsOk(env, h.tables) && !h.body.Adjudicated?
  }

  /** A set whose row and objects are the same is as much in order as before. */
  lemma SetOkSame(env: Environment, t: Tables, after: Tables, id: SetId)
    requires id in t.sets && SetOk(env, t, id)
    requires id in after.sets && after.sets[id] == t.sets[id] && RowsIn(after, id) == RowsIn(t, id)
    ensures SetOk(env, after, id)
  {
    hide WellFiled, WithinLimits, CountsOf, ManifestOf;
  }

  lemma SetsOkSame(env: Environment, t: Tables, after: Tables)
    requires SetsOk(env, t) && after.sets == t.sets && after.objects == t.objects
    ensures SetsOk(env, after)
  {
    hide SetOk;
    forall x | x in after.sets ensures SetOk(env, after, x) {
      SetOkSame(env, t, after, x);
    }
  }

  lemma NewSetOk(env: Environment, t: Tables, id: SetId)
    requires id in t.sets && t.sets[id].OpenSet? && id !in t.objects
    ensures SetOk(env, t, id)
  {
    hide WellFiled, WithinLimits, CountsOf, ManifestOf;
    EmptySetIsFine(env.dec);
  }

  lemma CreateOk(env: Environment, t: Tables, id: SetId, rid: RequestId)
    requires SetsOk(env, t)
    ensures HandlerOk(env, t, CreateSet(t, id, rid))
  {
    hide SetOk;
    var h := CreateSet(t, id, rid);
    if h.Done? {
      forall x | x in h.tables.sets ensures SetOk(env, h.tables, x) {
        if x != id {
          SetOkSame(env, t, h.tables, x);
        } else {
          NewSetOk(env, h.tables, id);
        }
      }
    }
  }

  lemma GrownSetOk(env: Environment, t: Tables, id: SetId, items: seq<Submission>)
    requires id in t.sets && t.sets[id].OpenSet? && SetOk(env, t, id)
    ensures var r := Upload(env.dec, RowsIn(t, id), items);
            r.Stored? ==> SetOk(env, WithRows(t, id, r.rows), id)
  {
    hide CountsOf, ManifestOf, WithinLimits, WellFiled, Upload;
    UploadMeans(env.dec, RowsIn(t, id), items);
    UploadKeepsFiled(env.dec, RowsIn(t, id), items);
  }

  lemma AddOk(env: Environment, t: Tables, id: SetId, items: seq<Submission>)
    requires SetsOk(env, t)
    ensures HandlerOk(env, t, AddObjects(env.dec, t, id, items))
  {
    hide SetOk, Upload;
    var h := AddObjects(env.dec, t, id, items);
    if h.Done? {
      GrownSetOk(env, t, id, items);
      forall x | x in h.tables.sets ensures SetOk(env, h.tables, x) {
        if x != id {
          SetOkSame(env, t, h.tables, x);
        }
      }
    }
  }

  lemma SealedSetOk(env: Environment, t: Tables, id: SetId)
    requires id in t.sets && t.sets[id].OpenSet? && SetOk(env, t, id)
    ensures SetOk(env, SealObjects(env, t, id).tables, id)
  {
    hide CountsOf, ManifestOf, WithinLimits, WellFiled;
  }

  lemma SealOk(env: Environment, t: Tables, id: SetId)
    requires SetsOk(env, t)
    ensures HandlerOk(env, t, SealObjects(env, t, id))
  {
    hide SetOk, ManifestOf;
    var h := SealObjects(env, t, id);
    if h.Done? && t.sets[id].OpenSet? {
      SealedSetOk(env, t, id);
      forall x | x in h.tables.sets ensures SetOk(env, h.tables, x) {
        if x != id {
          SetOkSame(env, t, h.tables, x);
        }
      }
    }
  }

  lemma TransactionOk(env: Environment, t: Tables, rid: RequestId, hash: Token, h: Handled)
    requires TablesOk(env, t) && HandlerOk(env, t, h)
    ensures var after := Idempotent(t, rid, hash, h).0;
            TablesOk(env, after) && Kept(t, after)
  {
    hide SetOk, RowFits;
    if rid !in t.requests && h.Done? {
      var after := Idempotent(t, rid, hash, h).0;
      SetsOkSame(env, h.tables, after);
      assert Kept(t, after);
      AdjudicationsKept(env, t, after);
    }
  }

  // ----- The phases of an adjudication ------------------------------------------------------------

  lemma BeginOk(env: Environment, t: Tables, rid: RequestId, hash: Token, id: SetId, input: RawInput)
    requires TablesOk(env, t)
    ensures var (after, client, reply) := Begin(env, t, rid, hash, id, input);
            TablesOk(env, after) && Kept(t, after) && ClientOk(env, after, client)
  {
    hide SetsOk, AdjudicationsOk, ResponsesOk, Kept, Begin, ClientOk;
    var (after, client, reply) := Begin(env, t, rid, hash, id, input);
    StoredIds(env, t);
    BeginTouches(env, t, rid, hash, id, input);
    SetsOkSame(env, t, after);
    AdjudicationsKept(env, t, after);
    PinnedOk(env, t, rid, hash, id, input);
    ClientKept(env, t, after, client);
  }

  lemma BeginTouches(env: Environment, t: Tables, rid: RequestId, hash: Token, id: SetId, input: RawInput)
    requires ResponsesOk(t) && forall x :: x in t.adjudications ==> t.adjudications[x].result.id == x
    ensures var after := Begin(env, t, rid, hash, id, input).0;
            && after.sets == t.sets && after.objects == t.objects && after.adjudications == t.adjudications
            && Kept(t, after) && ResponsesOk(after)
  {
  }

  lemma PinnedOk(env: Environment, t: Tables, rid: RequestId, hash: Token, id: SetId, input: RawInput)
    requires SetsOk(env, t)
    ensures ClientOk(env, t, Begin(env, t, rid, hash, id, input).1)
  {
    hide WellFiled, ManifestOf, CountsOf, WithinLimits;
    if id in t.sets {
      assert SetOk(env, t, id);
    }
  }

  /** A stored adjudication is filed under the id of its result. */
  lemma StoredIds(env: Environment, t: Tables)
    requires AdjudicationsOk(env, t)
    ensures forall id :: id in t.adjudications ==> t.adjudications[id].result.id == id
  {
    hide EngineRun, ManifestOf, SealedAs, Usable;
    forall id | id in t.adjudications ensures t.adjudications[id].result.id == id {
      var row := t.adjudications[id];
      assert RowFits(env, t, id, row);
      MadeFromId(env, RowsIn(t, row.setId), row.input, row.digest, row.pack);
    }
  }

  lemma MadeFromId(env: Environment, rows: Rows, input: RawInput, digest: Token, pack: Pack)
    requires MadeFrom(env, rows, input, digest, pack)
    ensures pack.result.id == env.adjudicationId(digest, input) && pack.manifest == ManifestOf(rows)
  {
    hide AdjudicationOf, ManifestOf, EngineInput, Usable;
  }

  lemma ComputeOk(env: Environment, t: Tables, pin: Pin)
    requires PinOk(env, t, pin) && Usable(pin.input, env.dec.texts)
    ensures ClientOk(env, t, Compute(env, t, pin).0)
  {
    hide EngineRun, ManifestOf;
  }

  lemma FinishOk(env: Environment, t: Tables, pin: Pin, pack: Pack)
    requires TablesOk(env, t) && ClientOk(env, t, Ready(pin, pack))
    ensures var (after, reply) := Finish(t, pin, pack);
            TablesOk(env, after) && Kept(t, after)
  {
    hide SetsOk, MadeFrom, PinOk, AdjudicationsOk, ResponsesOk, Kept, Finish;
    var after := Finish(t, pin, pack).0;
    FinishTouches(t, pin, pack);
    SetsOkSame(env, t, after);
    FinishStores(env, t, pin, pack);
    StoredIds(env, t);
    MadeFromId(env, RowsIn(t, pin.setId), pin.input, pin.digest, pack);
    PinnedId(env, t, pin);
    FinishAnswers(t, pin, pack);
  }

  lemma FinishTouches(t: Tables, pin: Pin, pack: Pack)
    ensures var after := Finish(t, pin, pack).0;
            after.sets == t.sets && after.objects == t.objects && Kept(t, after)
  {
    hide RequestUsed;
  }

  lemma FinishAnswers(t: Tables, pin: Pin, pack: Pack)
    requires ResponsesOk(t) && pin.id == pack.result.id
    requires forall id :: id in t.adjudications ==> t.adjudications[id].result.id == id
    ensures ResponsesOk(Finish(t, pin, pack).0)
  {
    hide RequestUsed;
  }

  lemma PinnedId(env: Environment, t: Tables, pin: Pin)
    requires PinOk(env, t, pin)
    ensures pin.id == env.adjudicationId(pin.digest, pin.input)
  {
  }

  /** A row that fits goes on fitting when nothing that it speaks of is changed. */
  lemma RowFitsStill(env: Environment, t: Tables, after: Tables, id: Token, row: AdjudicationRow)
    requires RowFits(env, t, id, row) && after.sets == t.sets && after.objects == t.objects
    requires forall rid :: rid in t.requests ==> rid in after.requests
    ensures RowFits(env, after, id, row)
  {
    hide MadeFrom;
  }

  lemma NewRowFits(env: Environment, t: Tables, pin: Pin, pack: Pack)
    requires ClientOk(env, t, Ready(pin, pack)) && pin.rid in t.requests
    ensures RowFits(env, t, pin.id, AdjudicationRow(pin.rid, pin.setId, pin.digest, pin.input, pack.result, pack))
  {
    hide MadeFrom, ManifestOf;
    MadeFromId(env, RowsIn(t, pin.setId), pin.input, pin.digest, pack);
  }

  lemma FinishStores(env: Environment, t: Tables, pin: Pin, pack: Pack)
    requires AdjudicationsOk(env, t) && ClientOk(env, t, Ready(pin, pack))
    ensures AdjudicationsOk(env, Finish(t, pin, pack).0)
  {
    hide RowFits, ClientOk, RequestUsed;
    var after := Finish(t, pin, pack).0;
    FinishTouches(t, pin, pack);
    forall id | id in after.adjudications ensures RowFits(env, after, id, after.adjudications[id]) {
      if id in t.adjudications {
        RowFitsStill(env, t, after, id, t.adjudications[id]);
      } else {
        ClientKept(env, t, after, Ready(pin, pack));
        NewRowFits(env, after, pin, pack);
      }
    }
  }

  // ----- Every step, every run -----------------------------------------------------------------------

  lemma OthersOk(env: Environment, s: State, after: Tables, c: ClientId, client: Client)
    requires StateOk(env, s) && TablesOk(env, after) && Kept(s.tables, after) && ClientOk(env, after, client)
    ensures StateOk(env, State(after, s.clients[c := client]))
  {
    hide TablesOk, Kept, ClientOk;
    var next := State(after, s.clients[c := client]);
    forall d | d in next.clients ensures ClientOk(env, after, next.clients[d]) {
      if d != c {
        ClientKept(env, s.tables, after, s.clients[d]);
      }
    }
  }

  lemma SameClientsOk(env: Environment, s: State, after: Tables)
    requires StateOk(env, s) && TablesOk(env, after) && Kept(s.tables, after)
    ensures StateOk(env, State(after, s.clients))
  {
    hide TablesOk, Kept, ClientOk;
    forall d | d in s.clients ensures ClientOk(env, after, s.clients[d]) {
      ClientKept(env, s.tables, after, s.clients[d]);
    }
  }

  lemma KeptSame(t: Tables)
    ensures Kept(t, t)
  {
  }

  /** Every step keeps the invariant, and leaves sealed sets, stored responses and stored
      adjudications as they were. */
  lemma StepOk(env: Environment, digestOf: (RequestId, Call) -> Token, s: State, a: Action)
    requires StateOk(env, s)
    ensures var after := Step(env, digestOf, s, a).0;
            StateOk(env, after) && Kept(s.tables, after.tables)
  {
    hide SetsOk, AdjudicationsOk, ResponsesOk, Kept, ClientOk, Transact, StepBegin, StepCompute, StepFinish,
        CreateSet, AddObjects, SealObjects;
    var t := s.tables;
    KeptSame(t);
    match a
    case Creating(rid, title, id) =>
      CreateOk(env, t, id, rid);
      TransactOk(env, s, rid, digestOf(rid, CreateCall(title)), CreateSet(t, id, rid));
    case Adding(rid, id, items) =>
      AddOk(env, t, id, items);
      TransactOk(env, s, rid, digestOf(rid, AddRequest(env.dec.texts, id, items)), AddObjects(env.dec, t, id, items));
    case Sealing(rid, id) =>
      SealOk(env, t, id);
      TransactOk(env, s, rid, digestOf(rid, SealCall(id)), SealObjects(env, t, id));
    case Beginning(c, rid, id, raw) => StepBeginOk(env, digestOf, s, c, rid, id, raw);
    case Computing(c) => StepComputeOk(env, s, c);
    case Finishing(c) => StepFinishOk(env, s, c);
    case Crashing(c) => IdleOk(env, s, t, c);
  }

  lemma TransactOk(env: Environment, s: State, rid: RequestId, hash: Token, h: Handled)
    requires StateOk(env, s) && HandlerOk(env, s.tables, h)
    ensures var after := Transact(s, rid, hash, h).0;
            StateOk(env, after) && Kept(s.tables, after.tables)
  {
    hide TablesOk, Kept, ClientOk, Idempotent;
    TransactionOk(env, s.tables, rid, hash, h);
    SameClientsOk(env, s, Idempotent(s.tables, rid, hash, h).0);
  }

  lemma IdleOk(env: Environment, s: State, after: Tables, c: ClientId)
    requires StateOk(env, s) && TablesOk(env, after) && Kept(s.tables, after)
    ensures StateOk(env, State(after, s.clients[c := Idle]))
  {
    OthersOk(env, s, after, c, Idle);
  }

  lemma StepBeginOk(env: Environment, digestOf: (RequestId, Call) -> Token, s: State, c: ClientId, rid: RequestId,
          id: SetId, raw: Json.Value)
    requires StateOk(env, s)
    ensures var after := StepBegin(env, digestOf, s, c, rid, id, raw).0;
            StateOk(env, after) && Kept(s.tables, after.tables)
  {
    hide TablesOk, Kept, ClientOk, Begin, Validated;
    KeptSame(s.tables);
    if ClientAt(s, c) == Idle && Validated(raw, env.dec.texts).Normal? {
      var input := Validated(raw, env.dec.texts).input;
      BeginOk(env, s.tables, rid, digestOf(rid, AdjudicateCall(id, input)), id, input);
      var (after, client, reply) := Begin(env, s.tables, rid, digestOf(rid, AdjudicateCall(id, input)), id, input);
      OthersOk(env, s, after, c, client);
    }
  }

  lemma StepComputeOk(env: Environment, s: State, c: ClientId)
    requires StateOk(env, s)
    ensures var after := StepCompute(env, s, c).0;
            StateOk(env, after) && Kept(s.tables, after.tables)
  {
    hide TablesOk, Kept, Compute, Usable, PinOk, MadeFrom;
    KeptSame(s.tables);
    if ClientAt(s, c).Pinned? {
      var pin := ClientAt(s, c).pin;
      if Usable(pin.input, env.dec.texts) {
        ComputeOk(env, s.tables, pin);
        OthersOk(env, s, s.tables, c, Compute(env, s.tables, pin).0);
      } else {
        IdleOk(env, s, s.tables, c);
      }
    }
  }

  lemma StepFinishOk(env: Environment, s: State, c: ClientId)
    requires StateOk(env, s)
    ensures var after := StepFinish(s, c).0;
            StateOk(env, after) && Kept(s.tables, after.tables)
  {
    hide TablesOk, Kept, Finish, PinOk, MadeFrom;
    KeptSame(s.tables);
    if ClientAt(s, c).Ready? {
      FinishOk(env, s.tables, ClientAt(s, c).pin, ClientAt(s, c).pack);
      IdleOk(env, s, Finish(s.tables, ClientAt(s, c).pin, ClientAt(s, c).pack).0, c);
    }
  }

  /** The invariant holds after every sequence of steps. */
  lemma {:induction false} RunOk(env: Environment, digestOf: (RequestId, Call) -> Token, actions: seq<Action>)
    ensures StateOk(env, Run(env, digestOf, actions))
  {
    hide Step, TablesOk;
    if actions == [] {
      assert TablesOk(env, EMPTY) by {
        EmptyOk(env);
      }
    } else {
      RunOk(env, digestOf, actions[..|actions| - 1]);
      StepOk(env, digestOf, Run(env, digestOf, actions[..|actions| - 1]), actions[|actions| - 1]);
    }
  }

  lemma EmptyOk(env: Environment)
    ensures TablesOk(env, EMPTY)
  {
  }

  /** What is sealed or stored at some point of a run is there, unchanged, at every later one. */
  lemma {:induction false} RunKeeps(env: Environment, digestOf: (RequestId, Call) -> Token, actions: seq<Action>,
          n: nat)
    requires n <= |actions|
    ensures Kept(Run(env, digestOf, actions[..n]).tables, Run(env, digestOf, actions).tables)
    decreases |actions| - n
  {
    hide Step, Kept;
    if n == |actions| {
      assert actions[..n] == actions;
      KeptSame(Run(env, digestOf, actions).tables);
    } else {
      RunOk(env, digestOf, actions[..n]);
      StepOk(env, digestOf, Run(env, digestOf, actions[..n]), actions[n]);
      assert actions[..n + 1][..n] == actions[..n] && actions[..n + 1][n] == actions[n];
      RunKeeps(env, digestOf, actions, n + 1);
      KeptTransitive(Run(env, digestOf, actions[..n]).tables, Run(env, digestOf, actions[..n + 1]).tables,
          Run(env, digestOf, actions).tables);
    }
  }
}
