/** What the tables say about the past of a run: the request ids on file are those that were
    answered with success, and the objects of a set are those of the batches it accepted. */
module ProtocolHistories {
  import opened Basics
  import opened Certificates
  import opened StoredObjects
  import opened Uploads
  import opened UploadHistories
  import opened Inputs
  import opened Packs
  import opened Protocol
  import opened ProtocolSafety
  import opened ProtocolResults

  // ----- Requests on file -----------------------------------------------------------------

  ghost predicate Succeeds(answer: Option<Answer>, rid: RequestId) {
    answer.Some? && answer.value.rid == rid && answer.value.reply.Replied?
  }

  /** A step files the request id that it answers with success, and no other; a step that fails
      changes no table at all. */
  lemma StepFiles(env: Environment, digestOf: (RequestId, Call) -> Token, s: State, a: Action, rid: RequestId)
    ensures var (after, answer) := Step(env, digestOf, s, a);
            && (rid in after.tables.requests <==> rid in s.tables.requests || Succeeds(answer, rid))
            && (answer.Some? && answer.value.reply.Error? ==> after.tables == s.tables)
  {
    hide Normalized, Validated, CountsOf, Upload, ManifestOf, EngineRun, RequestUsed, Usable;
  }

  ghost predicate HasSucceeded(env: Environment, digestOf: (RequestId, Call) -> Token, actions: seq<Action>,
          rid: RequestId)
  {
    exists i :: 0 <= i < |actions| && Succeeds(AnswerAt(env, digestOf, actions, i), rid)
  }

  /** In every run a request id is on file exactly when some request under it has succeeded: one
      that has only failed can be used again, for anything. */
  lemma {:induction false} OnlySuccessesAreFiled(env: Environment, digestOf: (RequestId, Call) -> Token,
          actions: seq<Action>, rid: RequestId)
    ensures rid in Run(env, digestOf, actions).tables.requests <==> HasSucceeded(env, digestOf, actions, rid)
  {
    hide Step;
    if actions != [] {
      var n := |actions| - 1;
      OnlySuccessesAreFiled(env, digestOf, actions[..n], rid);
      StepFiles(env, digestOf, Run(env, digestOf, actions[..n]), actions[n], rid);
      forall i | 0 <= i < n ensures AnswerAt(env, digestOf, actions, i) == AnswerAt(env, digestOf, actions[..n], i) {
        assert actions[..n][..i] == actions[..i] && actions[..n][i] == actions[i];
      }
      var last := AnswerAt(env, digestOf, actions, n);
      assert last == Step(env, digestOf, Run(env, digestOf, actions[..n]), actions[n]).1;
      if HasSucceeded(env, digestOf, actions[..n], rid) {
        var i :| 0 <= i < n && Succeeds(AnswerAt(env, digestOf, actions[..n], i), rid);
        assert Succeeds(AnswerAt(env, digestOf, actions, i), rid);
      }
      if HasSucceeded(env, digestOf, actions, rid) {
        var i :| 0 <= i < |actions| && Succeeds(AnswerAt(env, digestOf, actions, i), rid);
        assert i < n ==> Succeeds(AnswerAt(env, digestOf, actions[..n], i), rid);
      }
      assert Succeeds(last, rid) ==> HasSucceeded(env, digestOf, actions, rid);
    }
  }

  // ----- The objects of a set --------------------------------------------------------------

  /** The batch that a step adds to the set, if it does: one presented under a new request id
      and not refused. */
  ghost predicate AddsTo(env: Environment, s: State, a: Action, id: SetId) {
    a.Adding? && a.setId == id && a.rid !in s.tables.requests && AddObjects(env.dec, s.tables, id, a.items).Done?
  }

  /** The batches accepted for a set in a run, in order. */
  ghost function Accepted(env: Environment, digestOf: (RequestId, Call) -> Token, actions: seq<Action>, id: SetId)
    : seq<seq<Submission>>
  {
    if actions == [] then []
    else
      var n := |actions| - 1;
      Accepted(env, digestOf, actions[..n], id)
      + if AddsTo(env, Run(env, digestOf, actions[..n]), actions[n], id) then [actions[n].items] else []
  }

  /** A step changes the objects of a set only by storing a batch in it. */
  lemma StepStores(env: Environment, digestOf: (RequestId, Call) -> Token, s: State, a: Action, id: SetId)
    ensures var before, after := RowsIn(s.tables, id), RowsIn(Step(env, digestOf, s, a).0.tables, id);
            if AddsTo(env, s, a, id) then
              Upload(env.dec, before, a.items).Stored? && after == Upload(env.dec, before, a.items).rows
            else after == before
  {
    hide Normalized, Validated, CountsOf, Upload, ManifestOf, EngineRun, RequestUsed, Usable;
  }

  lemma HistoryOneMore(dec: Decoder, batches: seq<seq<Submission>>, items: seq<Submission>)
    requires History(dec, batches).Some? && Upload(dec, History(dec, batches).value, items).Stored?
    ensures History(dec, batches + [items]) == Some(Upload(dec, History(dec, batches).value, items).rows)
  {
    hide Upload;
    assert (batches + [items])[..|batches|] == batches;
  }

  /** In every run the objects of a set are what the batches accepted for it make, in order. */
  lemma {:induction false} SetsAreTheirHistories(env: Environment, digestOf: (RequestId, Call) -> Token,
          actions: seq<Action>, id: SetId)
    ensures History(env.dec, Accepted(env, digestOf, actions, id))
         == Some(RowsIn(Run(env, digestOf, actions).tables, id))
  {
    hide Step, Upload, AddObjects;
    if actions != [] {
      var n := |actions| - 1;
      var s := Run(env, digestOf, actions[..n]);
      SetsAreTheirHistories(env, digestOf, actions[..n], id);
      StepStores(env, digestOf, s, actions[n], id);
      var batches := Accepted(env, digestOf, actions[..n], id);
      if AddsTo(env, s, actions[n], id) {
        HistoryOneMore(env.dec, batches, actions[n].items);
      } else {
        assert batches + [] == batches;
      }
    }
  }

  predicate IsSealed(t: Tables, id: SetId) {
    id in t.sets && t.sets[id].SealedSet?
  }

  /** Two sets of one or of different runs that accepted the same objects, each with one time of
      receipt, hold the same objects and seal to the same digest, in whatever order, batching
      and repetition the objects came. */
  lemma SetsAreConfluent(env: Environment, digestOf: (RequestId, Call) -> Token, actions: seq<Action>,
          others: seq<Action>, a: SetId, b: SetId)
    requires env.dec.Sound()
    requires var x, y := Accepted(env, digestOf, actions, a), Accepted(env, digestOf, others, b);
             OneTimeEach(env.dec, x, y) && forall p :: Submits(env.dec, x, p) <==> Submits(env.dec, y, p)
    ensures var s, t := Run(env, digestOf, actions).tables, Run(env, digestOf, others).tables;
            && RowsIn(s, a) == RowsIn(t, b)
            && (IsSealed(s, a) && IsSealed(t, b) ==> s.sets[a].digest == t.sets[b].digest)
  {
    hide Run, Accepted, History, Submits, OneTimeEach, ManifestOf, WellFiled, CountsOf, WithinLimits,
        AdjudicationsOk, ResponsesOk, ClientOk;
    SetsAreTheirHistories(env, digestOf, actions, a);
    SetsAreTheirHistories(env, digestOf, others, b);
    UploadsAreConfluent(env.dec, Accepted(env, digestOf, actions, a), Accepted(env, digestOf, others, b));
    RunOk(env, digestOf, actions);
    RunOk(env, digestOf, others);
    var s, t := Run(env, digestOf, actions).tables, Run(env, digestOf, others).tables;
    assert a in s.sets ==> SetOk(env, s, a);
    assert b in t.sets ==> SetOk(env, t, b);
  }
}
