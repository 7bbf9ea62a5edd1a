/** Where adjudications in flight and stored ones come from: what a client has pinned, and what a
    row holds, is what some request of the run asked, under the digest of that request. */
module ProtocolPins {
  import opened Certificates
  import opened Inputs
  import opened StoredObjects
  import opened Uploads
  import opened Packs
  import opened Protocol
  import opened ProtocolSafety

  /** The action is an adjudication request with this id, set and normal form of its input. */
  ghost predicate Asks(env: Environment, a: Action, rid: RequestId, setId: SetId, input: RawInput) {
    a.Beginning? && a.rid == rid && a.setId == setId && Validated(a.raw, env.dec.texts) == Normal(input)
  }

  ghost predicate AsksAs(env: Environment, a: Action, c: ClientId, pin: Pin) {
    Asks(env, a, pin.rid, pin.setId, pin.input) && a.client == c
  }

  /** The adjudication is filed under the digest of its own content. */
  ghost predicate Honest(digestOf: (RequestId, Call) -> Token, pin: Pin) {
    pin.hash == digestOf(pin.rid, AdjudicateCall(pin.setId, pin.input))
  }

  ghost predicate AllHonest(digestOf: (RequestId, Call) -> Token, s: State) {
    forall c :: c in s.clients && s.clients[c] != Idle ==> Honest(digestOf, s.clients[c].pin)
  }

  /** A step leaves an adjudication in flight as it is pinned, ends it, or pins what is asked. */
  lemma StepPins(env: Environment, digestOf: (RequestId, Call) -> Token, s: State, a: Action, c: ClientId)
    ensures var client := ClientAt(Step(env, digestOf, s, a).0, c);
            client != Idle ==>
              || (ClientAt(s, c) != Idle && client.pin == ClientAt(s, c).pin)
              || (AsksAs(env, a, c, client.pin) && Honest(digestOf, client.pin))
  {
    hide Validated, CreateSet, AddObjects, SealObjects, EngineRun, RequestUsed, Usable;
  }

  /** In every run: what an adjudication in flight has pinned was asked by an earlier step of the
      same client, and its digest is that of the request. */
  lemma {:induction false} PinsComeFromRequests(env: Environment, digestOf: (RequestId, Call) -> Token,
          actions: seq<Action>, c: ClientId)
    requires ClientAt(Run(env, digestOf, actions), c) != Idle
    ensures var pin := ClientAt(Run(env, digestOf, actions), c).pin;
            && Honest(digestOf, pin)
            && exists k :: 0 <= k < |actions| && AsksAs(env, actions[k], c, pin)
  {
    hide Step, AsksAs, Honest;
    var n := |actions| - 1;
    var s := Run(env, digestOf, actions[..n]);
    var pin := ClientAt(Run(env, digestOf, actions), c).pin;
    StepPins(env, digestOf, s, actions[n], c);
    if ClientAt(s, c) != Idle && pin == ClientAt(s, c).pin {
      PinsComeFromRequests(env, digestOf, actions[..n], c);
      var k :| 0 <= k < n && AsksAs(env, actions[..n][k], c, pin);
      assert actions[k] == actions[..n][k];
    }
  }

  lemma PinsAreHonest(env: Environment, digestOf: (RequestId, Call) -> Token, actions: seq<Action>)
    ensures AllHonest(digestOf, Run(env, digestOf, actions))
  {
    hide Run, Honest;
    var s := Run(env, digestOf, actions);
    forall c | c in s.clients && s.clients[c] != Idle ensures Honest(digestOf, s.clients[c].pin) {
      PinsComeFromRequests(env, digestOf, actions, c);
    }
  }

  /** Only phase 3 stores an adjudication: of what its client has pinned. */
  lemma StepRows(env: Environment, digestOf: (RequestId, Call) -> Token, s: State, a: Action, id: Token)
    ensures var after := Step(env, digestOf, s, a).0.tables;
            id in after.adjudications ==>
              || (id in s.tables.adjudications && after.adjudications[id] == s.tables.adjudications[id])
              || (&& a.Finishing? && ClientAt(s, a.client).Ready?
                  && var pin, row := ClientAt(s, a.client).pin, after.adjudications[id];
                  && row.request == pin.rid && row.setId == pin.setId && row.input == pin.input
                  && pin.rid in after.requests
                  && after.requests[pin.rid] == RequestRow(pin.hash, 201, Adjudicated(row.result)))
  {
    hide Validated, Upload, ManifestOf, EngineRun, RequestUsed, Usable;
  }

  /** The request id of a stored adjudication is on file with its result and its digest. */
  ghost predicate Filed(digestOf: (RequestId, Call) -> Token, t: Tables, row: AdjudicationRow) {
    row.request in t.requests
    && t.requests[row.request]
         == RequestRow(digestOf(row.request, AdjudicateCall(row.setId, row.input)), 201, Adjudicated(row.result))
  }

  /** In every run: a stored adjudication was asked by a step of the run, with its set and the normal
      form of its input, and its request id is on file. */
  lemma {:induction false} RowsComeFromRequests(env: Environment, digestOf: (RequestId, Call) -> Token,
          actions: seq<Action>, id: Token)
    requires id in Run(env, digestOf, actions).tables.adjudications
    ensures var t := Run(env, digestOf, actions).tables;
            var row := t.adjudications[id];
            && Filed(digestOf, t, row)
            && exists k :: 0 <= k < |actions| && Asks(env, actions[k], row.request, row.setId, row.input)
  {
    hide Step, Asks, StateOk;
    var n := |actions| - 1;
    var s, t := Run(env, digestOf, actions[..n]), Run(env, digestOf, actions).tables;
    var row := t.adjudications[id];
    StepRows(env, digestOf, s, actions[n], id);
    if id in s.tables.adjudications && row == s.tables.adjudications[id] {
      RowsComeFromRequests(env, digestOf, actions[..n], id);
      RunKeeps(env, digestOf, actions, n);
    } else {
      PinsComeFromRequests(env, digestOf, actions[..n], actions[n].client);
    }
    var k :| 0 <= k < n && Asks(env, actions[..n][k], row.request, row.setId, row.input);
    assert actions[k] == actions[..n][k];
  }
}
