/** The adjudication engine (app/adjudicate.py, `_Engine`): builds the indexes, explores,
    shrinks until stable, and reports. */
module Engines {
  import opened Basics
  import opened Certificates
  import opened Revocation
  import opened RevocationLedger
  import opened RevocationEvaluators
  import opened SearchSpec
  import opened SearchMemory
  import SearchProof
  import opened Worlds
  import opened Explorers
  import opened Shrinking
  import opened Settling
  import opened Reports
  import Policies

  type Index = map<Token, seq<Fp>>

  predicate Filed(index: Index, t: Token, fp: Fp) {
    t in index && fp in index[t]
  }

  /** `index.setdefault(t, []).append(fp)`. */
  method FileUnder(index: Index, t: Token, fp: Fp) returns (filed: Index)
    ensures forall u, x :: Filed(filed, u, x) <==> Filed(index, u, x) || (u == t && x == fp)
  {
    filed := index[t := (if t in index then index[t] else []) + [fp]];
  }

  /** `lst.sort()` on every list of the index. */
  method SortLists(index: Index) returns (sorted: Index)
    ensures forall t, fp :: Filed(sorted, t, fp) <==> Filed(index, t, fp)
    ensures forall t :: t in sorted ==> StrictlyAscending(sorted[t])
  {
    sorted := map[];
    var todo := index.Keys;
    while todo != {}
      invariant todo <= index.Keys && sorted.Keys == index.Keys - todo
      invariant forall t, fp :: t in sorted ==> (Filed(sorted, t, fp) <==> Filed(index, t, fp))
      invariant forall t :: t in sorted ==> StrictlyAscending(sorted[t])
    {
      var t :| t in todo;
      sorted := sorted[t := Ascending(Elements(index[t]))];
      todo := todo - {t};
    }
  }

  /** The indexes over the active certificates. */
  method IndexCerts(certs: map<Fp, Cert>) returns (bySubject: Index, children: Index)
    ensures IndexedBySubject(certs, bySubject) && IndexedByIssuer(certs, children)
  {
    bySubject, children := map[], map[];
    var todo := certs.Keys;
    while todo != {}
      invariant todo <= certs.Keys
      invariant forall t, fp :: Filed(bySubject, t, fp) <==> fp in certs && fp !in todo && certs[fp].subject == t
      invariant forall t, fp :: Filed(children, t, fp) <==> fp in certs && fp !in todo && certs[fp].issuer == t
    {
      var fp :| fp in todo;
      bySubject := FileUnder(bySubject, certs[fp].subject, fp);
      children := FileUnder(children, certs[fp].issuer, fp);
      todo := todo - {fp};
    }
    bySubject := SortLists(bySubject);
    forall t, fp
      ensures t in bySubject && fp in bySubject[t] <==> fp in certs && certs[fp].subject == t
      ensures t in children && fp in children[t] <==> fp in certs && certs[fp].issuer == t
    {
      assert Filed(bySubject, t, fp) <==> fp in certs && certs[fp].subject == t;
      assert Filed(children, t, fp) <==> fp in certs && certs[fp].issuer == t;
    }
  }

  /** The indexes over the active evidence. */
  method IndexEvidence(ev: Evidence) returns (crlIndex: Index, ocspFps: seq<Fp>)
    ensures forall t, fp :: t in crlIndex && fp in crlIndex[t] <==> fp in ev.crls && ev.crls[fp].item.issuer == t
    ensures forall fp :: fp in ocspFps <==> fp in ev.ocsps
  {
    crlIndex, ocspFps := map[], [];
    var crls := ev.crls.Keys;
    while crls != {}
      invariant crls <= ev.crls.Keys
      invariant forall t, fp :: Filed(crlIndex, t, fp) <==> fp in ev.crls && fp !in crls && ev.crls[fp].item.issuer == t
    {
      var fp :| fp in crls;
      crlIndex := FileUnder(crlIndex, ev.crls[fp].item.issuer, fp);
      crls := crls - {fp};
    }
    var ocsps := ev.ocsps.Keys;
    while ocsps != {}
      invariant ocsps <= ev.ocsps.Keys
      invariant forall fp :: fp in ocspFps <==> fp in ev.ocsps && fp !in ocsps
    {
      var fp :| fp in ocsps;
      ocspFps := ocspFps + [fp];
      ocsps := ocsps - {fp};
    }
    forall t, fp ensures t in crlIndex && fp in crlIndex[t] <==> fp in ev.crls && ev.crls[fp].item.issuer == t {
      assert Filed(crlIndex, t, fp) <==> fp in ev.crls && ev.crls[fp].item.issuer == t;
    }
  }

  class Engine {
    const objects: Objects
    const input: Input
    const lib: Library
    const signing: Signing

    constructor (objects: Objects, input: Input, lib: Library, signing: Signing)
      ensures this.objects == objects && this.input == input && this.lib == lib && this.signing == signing
    {
      this.objects, this.input, this.lib, this.signing := objects, input, lib, signing;
    }

    /** `explore_once`. */
    method ExploreOnce(active: set<Fp>)
      returns (answer: Answer, proof: Option<Proof>, touched: set<Fp>,
               outcomes: map<Fp, Outcome>, accounting: map<Fp, Disposition>)
      requires active <= objects.Keys && input.question.leaf in CertsIn(Restrict(objects, active))
      ensures var part := Restrict(objects, active);
              var s, books := SearchIn(part, input.question, lib), LedgerIn(part, input.question, lib);
              && (answer == Exhausted <==> s.spent > MAX_EXPLORED_BRANCHES)
              && (answer != Exhausted ==>
                    && answer == (match s.path case Some(p) => FoundPath(p) case None => NotFound)
                    && proof == s.proof && touched == TouchedIn(part, input.question, lib)
                    && outcomes == books.outcomes && accounting == books.accounting)
    {
      hide SearchRun, GraphOf, EvidenceIn, BooksAfter, CertsIn;
      var q := input.question;
      var certs := CertsIn(Restrict(objects, active));
      var ev := EvidenceIn(Restrict(objects, active), q, lib);
      RestrictedCerts(objects, active);
      RestrictKeys(objects, active);
      var bySubject, children := IndexCerts(certs);
      var crlIndex, ocspFps := IndexEvidence(ev);
      var evaluator := new RevocationEvaluator(ev, crlIndex, ocspFps);
      var explorer := new Explorer(certs, bySubject, children, CertsIn(objects), q, lib, evaluator,
                                   MAX_PATH_LEN, MAX_EXPLORED_BRANCHES);
      answer, proof := explorer.Search(q.leaf);
      touched := (explorer.touched + evaluator.touched + {q.leaf}) * active;
      outcomes, accounting := evaluator.outcomes, evaluator.accounting;
    }

    /** `_check_artifact_signature`. */
    method CheckSignature(leaf: Cert) returns (check: ArtifactCheck)
      ensures check == CheckArtifact(leaf, input, signing)
    {
      if !leaf.key.inProfile {
        return KeyOutOfProfile;
      }
      if !signing.suits(input.algorithm, leaf.key) {
        return WrongKeyType;
      }
      var ok := signing.verifies(leaf.key, input.algorithm, input.signature, input.artifact);
      check := if ok then ArtifactGood else ArtifactBad;
    }

    /** The loop over the rejected branches that looks for an unsupported object. */
    method AnyUnsupported(proof: Option<Proof>) returns (found: bool)
      ensures found <==> BranchUnsupported(proof)
    {
      found := false;
      if proof.Some? {
        var branches := proof.value.branches;
        for i := 0 to |branches|
          invariant forall k :: 0 <= k < i ==> branches[k].failure.code != Unsupported
        {
          if branches[i].failure.code == Unsupported {
            return true;
          }
        }
      }
    }

    /** `trace_path`. */
    method TracePath(path: Path, outcomes: map<Fp, Outcome>) returns (trace: seq<TraceEntry>)
      ensures trace == TraceOf(path, outcomes)
    {
      trace := [];
      var n := |path|;
      for idx := 0 to n
        invariant trace == TraceOf(path, outcomes)[..idx]
      {
        var role := if idx == 0 then LeafRole else if idx == n - 1 then AnchorRole else IntermediateRole;
        var signer, status := None, None;
        if idx < n - 1 {
          signer := Some(path[idx + 1]);
          if path[idx] in outcomes {
            status := Some(outcomes[path[idx]].conclusion.status);
          }
        }
        trace := trace + [TraceEntry(path[idx], role, signer, status)];
      }
    }

    /** The loop of `run`: explores the active objects until all of them are touched. */
    method Shrink() returns (answer: Answer, proof: Option<Proof>, active: set<Fp>,
                             outcomes: map<Fp, Outcome>, accounting: map<Fp, Disposition>)
      requires input.question.leaf in CertsIn(objects)
      ensures var final := Settle(objects, input.question, lib);
              && (answer == Exhausted <==> final == None)
              && (final.Some? ==>
                    var s, books := SearchIn(final.value, input.question, lib),
                        LedgerIn(final.value, input.question, lib);
                    && active == final.value.Keys && active <= objects.Keys && final.value == Restrict(objects, active)
                    && answer == (match s.path case Some(p) => FoundPath(p) case None => NotFound)
                    && proof == s.proof && outcomes == books.outcomes && accounting == books.accounting)
    {
      hide SearchIn, LedgerIn, TouchedIn, CertsIn;
      var q := input.question;
      active := objects.Keys;
      WholeRestriction(objects);
      while true
        invariant active <= objects.Keys && q.leaf in CertsIn(Restrict(objects, active))
        invariant Settle(objects, q, lib) == Settle(Restrict(objects, active), q, lib)
        decreases |active|
      {
        var touched: set<Fp>;
        RestrictKeys(objects, active);
        answer, proof, touched, outcomes, accounting := ExploreOnce(active);
        if answer == Exhausted || touched == active {
          return;
        }
        NextTurn(objects, active, q, lib);
        active := touched;
      }
    }

    lemma NextTurn(objects: Objects, active: set<Fp>, q: Question, lib: Library)
      requires active <= objects.Keys && q.leaf in CertsIn(Restrict(objects, active))
      requires SearchIn(Restrict(objects, active), q, lib).spent <= MAX_EXPLORED_BRANCHES
      requires TouchedIn(Restrict(objects, active), q, lib) != active
      ensures var touched := TouchedIn(Restrict(objects, active), q, lib);
              && touched < active && |touched| < |active| && q.leaf in CertsIn(Restrict(objects, touched))
              && Settle(Restrict(objects, active), q, lib) == Settle(Restrict(objects, touched), q, lib)
    {
      hide SearchIn, LedgerIn;
      var part := Restrict(objects, active);
      var touched := TouchedIn(part, q, lib);
      RestrictKeys(objects, active);
      assert Restrict(part, touched) == Restrict(objects, touched);
      ProperSubsetSmaller(touched, active);
    }

    /** `run`: the result, with the objects it refers to. */
    method Run() returns (result: Adjudication)
      ensures result == AdjudicationOf(objects, input, lib, signing)
    {
      hide SearchIn, LedgerIn, Settle, CheckArtifact, BranchUnsupported, TraceOf;
      var q := input.question;
      if q.leaf !in objects || !objects[q.leaf].CertItem? {
        return LeafNotFound;
      }
      var leaf := CertsIn(objects)[q.leaf];
      var artifact := CheckSignature(leaf);
      var answer, proof, active, outcomes, accounting := Shrink();
      if answer == Exhausted {
        return OutOfBudget;
      }
      var certs := CertsIn(Restrict(objects, active));
      RestrictedCerts(objects, active);
      var unsupported := artifact == KeyOutOfProfile || leaf.unsupported;
      var rejected := AnyUnsupported(proof);
      var path := if answer.FoundPath? then Some(answer.path) else None;
      var verdict := if artifact == ArtifactGood && path.Some? then Valid
                     else if unsupported || rejected then Unresolved else Invalid;
      var trace, policies := [], None;
      if path.Some? {
        PathInside(Restrict(objects, active), q, lib);
        trace := TracePath(path.value, outcomes);
        policies := ValidPolicies(path.value, certs);
      }
      result := Decided(Report(verdict, artifact, path, trace, policies, proof, outcomes, accounting), active);
    }

    /** The policies of the path rules, as reported. */
    method ValidPolicies(path: Path, certs: map<Fp, Cert>) returns (policies: Option<set<Policies.Policy>>)
      requires AllIn(certs, path)
      ensures policies == PoliciesOn(certs, Some(path), input.question)
    {
      var pol := Policies.EvaluatePolicies(PoliciesAlong(CertsAlong(certs, path)), input.question.initialPolicySet);
      policies := if pol.Pass? then Some(pol.valid) else None;
    }
  }

  lemma PathInside(objects: Objects, q: Question, lib: Library)
    requires q.leaf in CertsIn(objects)
    ensures SearchIn(objects, q, lib).path.Some? ==> AllIn(CertsIn(objects), SearchIn(objects, q, lib).path.value)
  {
    hide SearchRun, SearchOf;
    SeenIsSearched(objects, q, lib);
    SearchProof.SearchIsOptimal(SeenIn(objects, q, lib), q.leaf, MAX_PATH_LEN);
  }

  lemma WholeRestriction(objects: Objects)
    ensures Restrict(objects, objects.Keys) == objects
  {
  }
}
