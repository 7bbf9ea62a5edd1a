/** The service as a transition system (app/api.py over app/store.py): four tables, atomic
    transactions, and adjudications that run in three phases and interleave. */
module Protocol {
  import opened Basics
  import opened Certificates
  import opened Inputs
  import opened StoredObjects
  import opened Uploads
  import opened Packs
  import Json = CanonicalJson

  type SetId = nat
  type ClientId = nat
  type RequestId = string

  datatype SetRow =
    | OpenSet(createdBy: RequestId)
    | SealedSet(createdBy: RequestId, digest: Token, manifest: Manifest)

  /** The content of a request as its digest takes it: a batch is an unordered collection of items
      as submitted, but for the spelling of times; an adjudication input is in normal form. */
  datatype Call =
    | CreateCall(title: Option<string>)
    | AddCall(setId: SetId, items: multiset<Submission>)
    | SealCall(setId: SetId)
    | AdjudicateCall(setId: SetId, input: RawInput)

  function AddRequest(texts: Texts, id: SetId, items: seq<Submission>): Call {
    AddCall(id, multiset(CanonItems(texts, items)))
  }

  datatype Body =
    | SetCreated(setId: SetId)
    | ItemsAdded(setId: SetId, receipt: Receipt)
    | SetSealed(setId: SetId, digest: Token, counts: Counts)
    | Adjudicated(result: Result)

  datatype RequestRow = RequestRow(hash: Token, status: nat, body: Body)

  datatype AdjudicationRow = AdjudicationRow(
    request: RequestId, setId: SetId, digest: Token, input: RawInput, result: Result, pack: Pack)

  datatype Tables = Tables(
    sets: map<SetId, SetRow>, objects: map<SetId, Rows>,
    requests: map<RequestId, RequestRow>, adjudications: map<Token, AdjudicationRow>)

  const EMPTY := Tables(map[], map[], map[], map[])

  datatype ApiError =
    | IdempotencyConflict | SetNotFound | SetIsSealed | SetNotSealed | IdTaken
    | LimitExceeded(limit: UploadError) | BadInput(error: InputError) | EngineFailed | PersistenceRace

  datatype Reply = Replied(status: nat, body: Body) | Error(error: ApiError)

  function RowsIn(t: Tables, setId: SetId): Rows {
    if setId in t.objects then t.objects[setId] else map[]
  }

  function WithRows(t: Tables, id: SetId, rows: Rows): Tables {
    if rows == RowsIn(t, id) then t else t.(objects := t.objects[id := rows])
  }

  // ----- Idempotency ---------------------------------------------------------------------

  /** The answer to a request id that is on file. */
  function Replay(t: Tables, rid: RequestId, hash: Token): Reply
    requires rid in t.requests
  {
    var row := t.requests[rid];
    if row.hash == hash then Replied(row.status, row.body) else Error(IdempotencyConflict)
  }

  function WithRequest(t: Tables, rid: RequestId, hash: Token, status: nat, body: Body): Tables {
    t.(requests := t.requests[rid := RequestRow(hash, status, body)])
  }

  datatype Handled = Done(tables: Tables, status: nat, body: Body) | Raised(error: ApiError)

  /** `run_idempotent`: replay, or handle and store the response, or roll back. */
  function Idempotent(t: Tables, rid: RequestId, hash: Token, h: Handled): (Tables, Reply) {
    if rid in t.requests then (t, Replay(t, rid, hash))
    else
      match h
      case Raised(e) => (t, Error(e))
      case Done(after, status, body) => (WithRequest(after, rid, hash, status, body), Replied(status, body))
  }

  // ----- The handlers ------------------------------------------------------------------------

  function CreateSet(t: Tables, id: SetId, rid: RequestId): Handled {
    if id in t.sets then Raised(IdTaken)
    else Done(t.(sets := t.sets[id := OpenSet(rid)]), 201, SetCreated(id))
  }

  function AddObjects(dec: Decoder, t: Tables, id: SetId, items: seq<Submission>): Handled {
    if id !in t.sets then Raised(SetNotFound)
    else if t.sets[id].SealedSet? then Raised(SetIsSealed)
    else
      match Upload(dec, RowsIn(t, id), items)
      case Refused(e) => Raised(LimitExceeded(e))
      case Stored(rows, receipt) => Done(WithRows(t, id, rows), 200, ItemsAdded(id, receipt))
  }

  function SealObjects(env: Environment, t: Tables, id: SetId): Handled {
    if id !in t.sets then Raised(SetNotFound)
    else
      match t.sets[id]
      case SealedSet(_, digest, manifest) => Done(t, 200, SetSealed(id, digest, manifest.counts))
      case OpenSet(rid) =>
        var manifest := ManifestOf(RowsIn(t, id));
        var digest := env.manifestDigest(manifest);
        Done(t.(sets := t.sets[id := SealedSet(rid, digest, manifest)]), 200, SetSealed(id, digest, manifest.counts))
  }

  // ----- Adjudication in three phases --------------------------------------------------------

  /** What an adjudication has pinned in phase 1. */
  datatype Pin = Pin(rid: RequestId, hash: Token, setId: SetId, input: RawInput, digest: Token, manifest: Manifest,
          id: Token)

  datatype Client = Idle | Pinned(pin: Pin) | Ready(pin: Pin, pack: Pack)

  /** Phase 1, a transaction: replay, or answer from a stored adjudication, or pin the set. */
  function Begin(env: Environment, t: Tables, rid: RequestId, hash: Token, setId: SetId, input: RawInput)
    : (Tables, Client, Option<Reply>)
  {
    if rid in t.requests then (t, Idle, Some(Replay(t, rid, hash)))
    else if setId !in t.sets then (t, Idle, Some(Error(SetNotFound)))
    else if t.sets[setId].OpenSet? then (t, Idle, Some(Error(SetNotSealed)))
    else
      var row := t.sets[setId];
      var id := env.adjudicationId(row.digest, input);
      if id in t.adjudications then
        var body := Adjudicated(t.adjudications[id].result);
        (WithRequest(t, rid, hash, 200, body), Idle, Some(Replied(200, body)))
      else (t, Pinned(Pin(rid, hash, setId, input, row.digest, row.manifest, id)), None)
  }

  /** Phase 2, outside any transaction: the engine runs on the set's objects as they are then. */
  ghost function Compute(env: Environment, t: Tables, pin: Pin): (Client, Option<Reply>)
    requires Usable(pin.input, env.dec.texts)
  {
    match EngineRun(env, RowsIn(t, pin.setId), pin.input, pin.digest)
    case Failed => (Idle, Some(Error(EngineFailed)))
    case Computed(result, active) => (Ready(pin, BuiltPack(RowsIn(t, pin.setId), pin.manifest, result, active)), None)
  }

  /** The uniqueness constraint on the request ids of adjudications. */
  ghost predicate RequestUsed(t: Tables, rid: RequestId) {
    exists id :: id in t.adjudications && t.adjudications[id].request == rid
  }

  /** Phase 3, a transaction: replay, or persist unless another instance already has, with a
      fallback for a violated uniqueness constraint. */
  ghost function Finish(t: Tables, pin: Pin, pack: Pack): (Tables, Reply) {
    if pin.rid in t.requests then (t, Replay(t, pin.rid, pin.hash))
    else if pin.id in t.adjudications then
      var body := Adjudicated(t.adjudications[pin.id].result);
      (WithRequest(t, pin.rid, pin.hash, 201, body), Replied(201, body))
    else if RequestUsed(t, pin.rid) then (t, Error(PersistenceRace))
    else
      var row := AdjudicationRow(pin.rid, pin.setId, pin.digest, pin.input, pack.result, pack);
      var body := Adjudicated(pack.result);
      (WithRequest(t.(adjudications := t.adjudications[pin.id := row]), pin.rid, pin.hash, 201, body),
          Replied(201, body))
  }

  // ----- Runs ------------------------------------------------------------------------------------

  /** One step of some instance. Request digests are taken of the normalized content. */
  datatype Action =
    | Creating(rid: RequestId, title: Option<string>, freshId: SetId)
    | Adding(rid: RequestId, setId: SetId, items: seq<Submission>)
    | Sealing(rid: RequestId, setId: SetId)
    | Beginning(client: ClientId, rid: RequestId, setId: SetId, raw: Json.Value)
    | Computing(client: ClientId)
    | Finishing(client: ClientId)
    | Crashing(client: ClientId)

  datatype State = State(tables: Tables, clients: map<ClientId, Client>)

  datatype Answer = Answer(rid: RequestId, reply: Reply)

  const START := State(EMPTY, map[])

  function ClientAt(s: State, c: ClientId): Client {
    if c in s.clients then s.clients[c] else Idle
  }

  /** A request that is one transaction under its request id. */
  function Transact(s: State, rid: RequestId, hash: Token, h: Handled): (State, Option<Answer>) {
    var (after, reply) := Idempotent(s.tables, rid, hash, h);
    (s.(tables := after), Some(Answer(rid, reply)))
  }

  ghost function StepBegin(env: Environment, digestOf: (RequestId, Call) -> Token, s: State, c: ClientId,
          rid: RequestId, id: SetId, raw: Json.Value): (State, Option<Answer>)
  {
    if ClientAt(s, c) != Idle then (s, None)
    else
      match Validated(raw, env.dec.texts)
      case Rejected(e) => (s, Some(Answer(rid, Error(BadInput(e)))))
      case Normal(input) =>
        var (after, client, reply) := Begin(env, s.tables, rid, digestOf(rid, AdjudicateCall(id, input)), id, input);
        (State(after, s.clients[c := client]), if reply.Some? then Some(Answer(rid, reply.value)) else None)
  }

  /** The engine reads the texts of the input again; one that does not read back is an exception. */
  ghost function StepCompute(env: Environment, s: State, c: ClientId): (State, Option<Answer>) {
    if !ClientAt(s, c).Pinned? then (s, None)
    else
      var pin := ClientAt(s, c).pin;
      var (client, reply) := if Usable(pin.input, env.dec.texts) then Compute(env, s.tables, pin)
                             else (Idle, Some(Error(EngineFailed)));
      (s.(clients := s.clients[c := client]), if reply.Some? then Some(Answer(pin.rid, reply.value)) else None)
  }

  ghost function StepFinish(s: State, c: ClientId): (State, Option<Answer>) {
    if !ClientAt(s, c).Ready? then (s, None)
    else
      var (after, reply) := Finish(s.tables, ClientAt(s, c).pin, ClientAt(s, c).pack);
      (State(after, s.clients[c := Idle]), Some(Answer(ClientAt(s, c).pin.rid, reply)))
  }

  ghost function Step(env: Environment, digestOf: (RequestId, Call) -> Token, s: State, a: Action)
    : (State, Option<Answer>)
  {
    match a
    case Creating(rid, title, id) => Transact(s, rid, digestOf(rid, CreateCall(title)), CreateSet(s.tables, id, rid))
    case Adding(rid, id, items) =>
      Transact(s, rid, digestOf(rid, AddRequest(env.dec.texts, id, items)), AddObjects(env.dec, s.tables, id, items))
    case Sealing(rid, id) => Transact(s, rid, digestOf(rid, SealCall(id)), SealObjects(env, s.tables, id))
    case Beginning(c, rid, id, raw) => StepBegin(env, digestOf, s, c, rid, id, raw)
    case Computing(c) => StepCompute(env, s, c)
    case Finishing(c) => StepFinish(s, c)
    case Crashing(c) => (s.(clients := s.clients[c := Idle]), None)
  }

  /** The state after a sequence of steps. */
  ghost function Run(env: Environment, digestOf: (RequestId, Call) -> Token, actions: seq<Action>): State {
    if actions == [] then START
    else Step(env, digestOf, Run(env, digestOf, actions[..|actions| - 1]), actions[|actions| - 1]).0
  }
}
