/** What a request is answered when its id is used for the first time, in every reachable state: what
    exists decides, and results are the engine's on the objects of the set asked about. */
module ProtocolAnswers {
  import opened Basics
  import opened Certificates
  import opened Inputs
  import opened StoredObjects
  import opened Uploads
  import opened Packs
  import opened Protocol
  import opened ProtocolSafety
  import opened ProtocolResults
  import Json = CanonicalJson

  /** The set is sealed, and this is what the engine makes of its objects for this input. */
  ghost predicate EngineSays(env: Environment, t: Tables, setId: SetId, input: RawInput, result: Result) {
    && setId in t.sets && t.sets[setId].SealedSet? && Usable(input, env.dec.texts)
    && var run := EngineRun(env, RowsIn(t, setId), input, t.sets[setId].digest);
    run.Computed? && run.result == result
  }

  /** The set is sealed to the digest of the manifest of its objects. */
  ghost predicate SealedRightly(env: Environment, t: Tables, id: SetId) {
    && id in t.sets && t.sets[id].SealedSet?
    && t.sets[id].digest == env.manifestDigest(ManifestOf(RowsIn(t, id)))
    && t.sets[id].manifest == ManifestOf(RowsIn(t, id))
  }

  lemma RowSays(env: Environment, digestOf: (RequestId, Call) -> Token, t: Tables, setId: SetId, input: RawInput)
    requires TablesOk(env, t) && NoCollisions(env, digestOf)
    requires setId in t.sets && t.sets[setId].SealedSet?
    requires env.adjudicationId(t.sets[setId].digest, input) in t.adjudications
    ensures var id := env.adjudicationId(t.sets[setId].digest, input);
            EngineSays(env, t, setId, input, t.adjudications[id].result)
  {
    hide EngineRun, ManifestOf, Usable, SetOk;
    var id := env.adjudicationId(t.sets[setId].digest, input);
    var row := t.adjudications[id];
    assert RowFits(env, t, id, row);
    SealedAlike(env, t, setId, row.setId);
  }

  /** A set is created open under an id that is new, with status 201. */
  lemma CreatingAnswers(env: Environment, digestOf: (RequestId, Call) -> Token, s: State, rid: RequestId,
          title: Option<string>, id: SetId)
    requires rid !in s.tables.requests
    ensures var (after, answer) := Step(env, digestOf, s, Creating(rid, title, id));
            if id in s.tables.sets then answer == Some(Answer(rid, Error(IdTaken)))
            else answer == Some(Answer(rid, Replied(201, SetCreated(id)))) && id in after.tables.sets
                 && after.tables.sets[id] == OpenSet(rid)
  {
  }

  /** Objects are added only to a set that is there and open. */
  lemma AddingAnswers(env: Environment, digestOf: (RequestId, Call) -> Token, s: State, rid: RequestId, id: SetId,
          items: seq<Submission>)
    requires rid !in s.tables.requests
    ensures var t := s.tables;
            var (after, answer) := Step(env, digestOf, s, Adding(rid, id, items));
            if id !in t.sets then answer == Some(Answer(rid, Error(SetNotFound)))
            else if !t.sets[id].OpenSet? then answer == Some(Answer(rid, Error(SetIsSealed)))
            else
              match Upload(env.dec, RowsIn(t, id), items)
              case Refused(e) => answer == Some(Answer(rid, Error(LimitExceeded(e)))) && after.tables == t
              case Stored(rows, receipt) =>
                answer == Some(Answer(rid, Replied(200, ItemsAdded(id, receipt)))) && RowsIn(after.tables, id) == rows
  {
    hide Upload;
  }

  /** Sealing, for the first time or again, answers with the digest and the counts of the objects
      that the set has. */
  lemma SealingAnswers(env: Environment, digestOf: (RequestId, Call) -> Token, actions: seq<Action>, rid: RequestId,
          id: SetId)
    requires rid !in Run(env, digestOf, actions).tables.requests
    ensures var s := Run(env, digestOf, actions);
            var (after, answer) := Step(env, digestOf, s, Sealing(rid, id));
            if id !in s.tables.sets then answer == Some(Answer(rid, Error(SetNotFound)))
            else
              var rows := RowsIn(s.tables, id);
              && answer == Some(Answer(rid, Replied(200, SetSealed(id, env.manifestDigest(ManifestOf(rows)),
                                                                   CountsOf(rows)))))
              && SealedRightly(env, after.tables, id) && RowsIn(after.tables, id) == rows
  {
    hide Run, WellFiled, WithinLimits, ManifestOf, CountsOf, AdjudicationsOk, ResponsesOk, ClientOk, Step;
    RunOk(env, digestOf, actions);
    var s := Run(env, digestOf, actions);
    if id in s.tables.sets {
      assert SetOk(env, s.tables, id);
      ManifestCounts(RowsIn(s.tables, id));
    }
    SealingStep(env, digestOf, s, rid, id);
  }

  lemma ManifestCounts(rows: Rows)
    ensures ManifestOf(rows).counts == CountsOf(rows)
  {
  }

  lemma SealingStep(env: Environment, digestOf: (RequestId, Call) -> Token, s: State, rid: RequestId, id: SetId)
    requires rid !in s.tables.requests
    requires id in s.tables.sets && s.tables.sets[id].SealedSet? ==> SealedRightly(env, s.tables, id)
    ensures var (after, answer) := Step(env, digestOf, s, Sealing(rid, id));
            if id !in s.tables.sets then answer == Some(Answer(rid, Error(SetNotFound)))
            else
              var manifest := ManifestOf(RowsIn(s.tables, id));
              && answer == Some(Answer(rid, Replied(200, SetSealed(id, env.manifestDigest(manifest), manifest.counts))))
              && SealedRightly(env, after.tables, id) && RowsIn(after.tables, id) == RowsIn(s.tables, id)
  {
    hide ManifestOf;
  }

  /** Phase 1 of an adjudication: about a set that is not there or not sealed, an error; if a result is
      stored, the engine's result with status 200; else nothing yet. */
  lemma BeginningAnswers(env: Environment, digestOf: (RequestId, Call) -> Token, actions: seq<Action>, c: ClientId,
          rid: RequestId, id: SetId, raw: Json.Value)
    requires NoCollisions(env, digestOf) && rid !in Run(env, digestOf, actions).tables.requests
    requires ClientAt(Run(env, digestOf, actions), c) == Idle
    ensures var t := Run(env, digestOf, actions).tables;
            var (after, answer) := Step(env, digestOf, Run(env, digestOf, actions), Beginning(c, rid, id, raw));
            match Validated(raw, env.dec.texts)
            case Rejected(e) => answer == Some(Answer(rid, Error(BadInput(e))))
            case Normal(input) =>
              if id !in t.sets then answer == Some(Answer(rid, Error(SetNotFound)))
              else if t.sets[id].OpenSet? then answer == Some(Answer(rid, Error(SetNotSealed)))
              else if env.adjudicationId(t.sets[id].digest, input) in t.adjudications then
                exists r :: EngineSays(env, t, id, input, r)
                            && answer == Some(Answer(rid, Replied(200, Adjudicated(r))))
              else
                answer == None && ClientAt(after, c).Pinned?
                && ClientAt(after, c).pin.rid == rid && ClientAt(after, c).pin.setId == id
                && ClientAt(after, c).pin.input == input
  {
    hide Run, SetsOk, AdjudicationsOk, ResponsesOk, ClientOk, EngineSays, Validated, NoCollisions;
    RunOk(env, digestOf, actions);
    var t := Run(env, digestOf, actions).tables;
    if Validated(raw, env.dec.texts).Normal? && id in t.sets && t.sets[id].SealedSet? {
      var input := Validated(raw, env.dec.texts).input;
      if env.adjudicationId(t.sets[id].digest, input) in t.adjudications {
        RowSays(env, digestOf, t, id, input);
      }
    }
  }

  /** Phase 3 answers with the engine's result on the set's objects and status 201, whether it stores its
      own or adopts one stored in the meantime. */
  lemma FinishingAnswers(env: Environment, digestOf: (RequestId, Call) -> Token, actions: seq<Action>, c: ClientId)
    requires NoCollisions(env, digestOf) && ClientAt(Run(env, digestOf, actions), c).Ready?
    requires ClientAt(Run(env, digestOf, actions), c).pin.rid !in Run(env, digestOf, actions).tables.requests
    ensures var s := Run(env, digestOf, actions);
            var pin := ClientAt(s, c).pin;
            var (after, answer) := Step(env, digestOf, s, Finishing(c));
            exists r :: EngineSays(env, s.tables, pin.setId, pin.input, r)
                        && answer == Some(Answer(pin.rid, Replied(201, Adjudicated(r))))
                        && pin.id in after.tables.adjudications && after.tables.adjudications[pin.id].result == r
  {
    RunOk(env, digestOf, actions);
    RaceIsUnreachable(env, digestOf, actions, Finishing(c));
    hide Run;
    FinishSays(env, digestOf, Run(env, digestOf, actions), c);
  }

  lemma FinishSays(env: Environment, digestOf: (RequestId, Call) -> Token, s: State, c: ClientId)
    requires NoCollisions(env, digestOf) && StateOk(env, s) && ClientAt(s, c).Ready?
    requires ClientAt(s, c).pin.rid !in s.tables.requests
    requires forall id :: id in s.tables.adjudications ==> s.tables.adjudications[id].request in s.tables.requests
    ensures var pin := ClientAt(s, c).pin;
            var (after, answer) := Step(env, digestOf, s, Finishing(c));
            exists r :: EngineSays(env, s.tables, pin.setId, pin.input, r)
                        && answer == Some(Answer(pin.rid, Replied(201, Adjudicated(r))))
                        && pin.id in after.tables.adjudications && after.tables.adjudications[pin.id].result == r
  {
    hide EngineRun, ManifestOf, Usable, SetsOk, AdjudicationsOk, ResponsesOk, NoCollisions;
    var pin, pack := ClientAt(s, c).pin, ClientAt(s, c).pack;
    assert ClientOk(env, s.tables, s.clients[c]);
    if pin.id in s.tables.adjudications {
      RowSays(env, digestOf, s.tables, pin.setId, pin.input);
    } else {
      assert EngineSays(env, s.tables, pin.setId, pin.input, pack.result);
    }
  }
}
