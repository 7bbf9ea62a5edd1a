/** The stateful search (app/graph.py, `Explorer`): its methods do what `SearchMemory` says,
    and spend no more than the budget. */
module Explorers {
  import opened Basics
  import opened Certificates
  import opened Revocation
  import opened RevocationLedger
  import opened RevocationEvaluators
  import opened SearchSpec
  import opened SearchMemory
  import opened Worlds
  import NameConstraints
  import Policies

  /** How a visit ends: the budget is spent, nothing is found, or a path is. */
  datatype Answer = Exhausted | NotFound | FoundPath(path: Path)

  /** The fields a visit changes. */
  datatype Snapshot = Snapshot(
    touched: set<Fp>, budget: nat, cutoff: bool, branches: seq<Branch>, asked: seq<(Fp, Fp)>)

  /** The status calls that a list of probes stands for. */
  ghost function CallsOf(certs: map<Fp, Cert>, probes: seq<(Fp, Fp)>): seq<(Cert, Cert)> {
    if probes == [] then []
    else
      var (c, p) := probes[|probes| - 1];
      CallsOf(certs, probes[..|probes| - 1]) + if c in certs && p in certs then [(certs[c], certs[p])] else []
  }

  /** The ledger of an evaluator that has been asked these probes, in this order. */
  ghost function BooksAfter(certs: map<Fp, Cert>, ev: Evidence, probes: seq<(Fp, Fp)>): Ledger {
    AskedAll(ev, BLANK, CallsOf(certs, probes))
  }

  lemma OneMoreProbe(certs: map<Fp, Cert>, ev: Evidence, probes: seq<(Fp, Fp)>, c: Fp, p: Fp)
    requires c in certs && p in certs
    ensures BooksAfter(certs, ev, probes + [(c, p)]) == Asked(ev, BooksAfter(certs, ev, probes), certs[c], certs[p])
  {
    var more := probes + [(c, p)];
    assert more[..|more| - 1] == probes;
    var calls := CallsOf(certs, probes);
    assert CallsOf(certs, more) == calls + [(certs[c], certs[p])];
    assert (calls + [(certs[c], certs[p])])[..|calls|] == calls;
  }

  function After(s: Snapshot, v: Visit, record: bool): Snapshot {
    Snapshot(s.touched + v.touched, s.budget + v.spent, s.cutoff || v.cutoff,
             if record then s.branches + v.branches else s.branches, s.asked + v.probes)
  }

  lemma AfterJoin(s: Snapshot, a: Visit, b: Visit, record: bool)
    ensures After(After(s, a, record), b, record) == After(s, Join(a, b), record)
  {
    assert (s.branches + a.branches) + b.branches == s.branches + (a.branches + b.branches);
    assert (s.asked + a.probes) + b.probes == s.asked + (a.probes + b.probes);
  }

  /** Trying more candidates never costs less. */
  lemma {:induction false} FirstCosts(g: Graph, asked: Probes, path: Path, parents: seq<Fp>, m: nat, n: nat, depth: int)
    requires OnGraph(g, path) && m <= n <= |parents|
    requires forall p :: p in parents ==> p in g.certs && p !in path
    ensures ExploreFirst(g, asked, path, parents, m, depth).spent
         <= ExploreFirst(g, asked, path, parents, n, depth).spent
    ensures ExploreFirst(g, asked, path, parents, m, depth).found.Some? ==>
              ExploreFirst(g, asked, path, parents, n, depth) == ExploreFirst(g, asked, path, parents, m, depth)
    decreases n
  {
    hide ExploreOne;
    if m < n {
      FirstCosts(g, asked, path, parents, m, n - 1, depth);
    }
  }

  lemma RoundsStart(g: Graph, leaf: Fp)
    requires leaf in g.certs
    ensures RoundsRun(g, leaf, 0) == Visit(None, true, {leaf}, [], 0, [])
  {
  }

  /** The rounds, once ended, stay as they are; and they never get cheaper. */
  lemma {:induction false} RoundsCost(g: Graph, leaf: Fp, n: nat, max: nat)
    requires leaf in g.certs && n <= max
    ensures RoundsRun(g, leaf, n).spent <= RoundsRun(g, leaf, max).spent
    ensures (RoundsRun(g, leaf, n).found.Some? || !RoundsRun(g, leaf, n).cutoff) ==>
              RoundsRun(g, leaf, max) == RoundsRun(g, leaf, n)
  {
    if n < max {
      RoundsCost(g, leaf, n, max - 1);
    }
  }

  lemma ExploreCases(g: Graph, asked: Probes, path: Path, depth: int)
    requires OnGraph(g, path)
    ensures Explore(g, asked, path, depth)
              == Join(Spend(1), if Last(path) in g.anchors then AtAnchor(g, path) else Expanded(g, asked, path, depth))
  {
  }

  /** What the search does at an anchor, after the first step is spent. */
  ghost function AtAnchor(g: Graph, path: Path): Visit
    requires |path| > 0
  {
    match g.terminal(path)
    case None => Visit(Some(path), false, {}, [], 0, [])
    case Some(f) => Reject(path, f)
  }

  /** What the search does at a non-anchor, after the first step is spent. */
  ghost function Expanded(g: Graph, asked: Probes, path: Path, depth: int): Visit
    requires OnGraph(g, path)
  {
    var parents := Open(g, path);
    if parents == [] then Reject(path, Failure(Last(path), NoIssuer))
    else ExploreFirst(g, asked, path, parents, |parents|, depth)
  }

  lemma FirstNone(g: Graph, asked: Probes, path: Path, parents: seq<Fp>, depth: int)
    requires OnGraph(g, path)
    requires forall p :: p in parents ==> p in g.certs && p !in path
    ensures ExploreFirst(g, asked, path, parents, 0, depth) == Spend(0)
  {
  }

  lemma FirstCases(g: Graph, asked: Probes, path: Path, parents: seq<Fp>, n: nat, depth: int)
    requires OnGraph(g, path) && n < |parents|
    requires forall p :: p in parents ==> p in g.certs && p !in path
    ensures var before := ExploreFirst(g, asked, path, parents, n, depth);
            before.found == None ==>
              ExploreFirst(g, asked, path, parents, n + 1, depth)
                  == Join(before, ExploreOne(g, asked + before.probes, path, parents[n], depth))
  {
  }

  lemma OneCases(g: Graph, asked: Probes, path: Path, p: Fp, depth: int)
    requires OnGraph(g, path) && p in g.certs && p !in path
    ensures var here, t := Entered(g, path, p), ExploreOne(g, asked, path, p, depth);
            var failure := EdgeFailure(Recalling(g, asked), path, p);
            if failure.Some? then t == Join(here, Reject(path + [p], failure.value))
            else if p in g.anchors then t == Join(here, Explore(g, asked + here.probes, path + [p], depth - 1))
            else if !CanReach(g, p) then t == Join(here, Reject(path + [p], Failure(p, NoTrustedAnchor)))
            else if depth <= 1 then t == here.(cutoff := true)
            else t == Join(here, Explore(g, asked + here.probes, path + [p], depth - 1))
  {
  }

  lemma EdgeCases(g: Graph, asked: Probes, path: Path, p: Fp)
    requires |path| > 0
    ensures EdgeFailure(Recalling(g, asked), path, p)
              == if g.plain(path, p).Some? then g.plain(path, p)
                 else StatusFailure(Last(path), Told(g, asked, Last(path), p))
  {
  }

  function StatusFailure(c: Fp, status: Status): Option<Failure> {
    if status == GoodStatus then None else Some(Failure(c, RevocationNotGood(status)))
  }

  // ----- Reachability ----------------------------------------------------------------

  /** A set that holds the present anchors and is closed under going to a child holds every
      certificate that can reach an anchor. */
  lemma ClosedHoldsAll(g: Graph, r: set<Fp>, p: Fp)
    requires g.anchors * g.certs <= r
    requires forall c, q :: q in r && IsParent(g, c, q) ==> c in r
    requires CanReach(g, p)
    ensures p in r
  {
    var chain :| Chain(g, chain) && chain[0] == p && Last(chain) in g.anchors;
    var i := |chain| - 1;
    while i > 0
      invariant 0 <= i < |chain| && chain[i] in r
    {
      i := i - 1;
      assert IsParent(g, chain[i], chain[i + 1]);
    }
  }

  lemma AnchorReaches(g: Graph, p: Fp)
    requires p in g.anchors && p in g.certs
    ensures CanReach(g, p)
  {
    assert Chain(g, [p]) && [p][0] == p && Last([p]) == p;
  }

  /** The active certificates are what the source holds, and the indexes list exactly them. */
  ghost predicate Held(metas: map<Fp, Cert>, source: map<Fp, Cert>) {
    forall fp :: fp in metas ==> fp in source && source[fp] == metas[fp]
  }

  ghost predicate IndexedBySubject(metas: map<Fp, Cert>, index: map<Token, seq<Fp>>) {
    forall t, fp :: t in index && fp in index[t] <==> fp in metas && metas[fp].subject == t
  }

  ghost predicate IndexedByIssuer(metas: map<Fp, Cert>, index: map<Token, seq<Fp>>) {
    forall t, fp :: t in index && fp in index[t] <==> fp in metas && metas[fp].issuer == t
  }

  class Explorer {
    /** Index data of the active certificates, by fingerprint, by subject and by issuer. */
    const metas: map<Fp, Cert>
    const bySubject: map<Token, seq<Fp>>
    const children: map<Token, seq<Fp>>
    /** `get_cert` reads from all the objects there are. */
    const source: map<Fp, Cert>
    const question: Question
    const library: Library
    const rev: RevocationEvaluator
    const maxPathLen: nat
    const maxBranches: nat

    var touched: set<Fp>
    var sigCache: map<(Fp, Fp), bool>
    var reachable: set<Fp>
    var branches: seq<Branch>
    var budget: nat
    var cutoff: bool
    /** The status calls made, and the ledger any such calls lead to. */
    ghost var asked: seq<(Fp, Fp)>
    ghost const books: seq<(Fp, Fp)> -> Ledger

    /** The graph this explorer searches. */
    ghost const g: Graph

    /** The graph's edges are the name and key matches of the active certificates. */
    ghost predicate EdgesRight() {
      && g.certs == metas.Keys && g.anchors == question.anchors
      && forall c, p {:trigger IssuerMatches(metas[c], metas[p])} :: c in metas && p in metas ==>
           (p in g.parents(c) <==> IssuerMatches(metas[c], metas[p]))
    }

    /** Its checks are those on the active certificates and evidence. */
    ghost predicate PlainRight() {
      && (forall c {:trigger LeafFailure(metas[c], question.signedAt)} :: c in metas ==>
            g.leafCheck(c) == LeafFailure(metas[c], question.signedAt))
      && (forall path, p {:trigger PlainFailure(metas, question.signedAt, path, p)} ::
            AllIn(metas, path) && p in metas ==>
              g.plain(path, p) == PlainFailure(metas, question.signedAt, path, p))
    }

    ghost predicate StatusRight() {
      && (forall c, p {:trigger StatusIn(metas, rev.ev, c, p)} :: c in metas && p in metas ==>
            g.status(c, p) == StatusIn(metas, rev.ev, c, p))
      && (forall p {:trigger g.key(p)} :: p in metas ==> g.key(p) == metas[p].key)
    }

    ghost predicate LedgerRight() {
      && books([]) == BLANK
      && forall probes, c, p {:trigger Asked(rev.ev, books(probes), metas[c], metas[p])} :: c in metas && p in metas ==>
           books(probes + [(c, p)]) == Asked(rev.ev, books(probes), metas[c], metas[p])
    }

    ghost predicate TerminalRight() {
      forall path {:trigger TerminalFailure(CertsAlong(metas, path), question, library)} :: AllIn(metas, path) ==>
        g.terminal(path) == TerminalFailure(CertsAlong(metas, path), question, library)
    }

    ghost predicate Wired() {
      && EdgesRight() && PlainRight() && StatusRight() && TerminalRight() && LedgerRight()
      && Held(metas, source) && IndexedBySubject(metas, bySubject) && IndexedByIssuer(metas, children)
      && OwnNames(metas) && rev.Indexed() && maxPathLen >= 1
    }

    ghost predicate SignaturesRight(cache: map<(Fp, Fp), bool>) {
      forall c, p :: (c, p) in cache ==>
        c in metas && p in metas && cache[(c, p)] == EdgeSignatureOk(metas[c], metas[p])
    }

    /** The cache holds exactly the questions asked, and each with the answer given first. */
    ghost predicate CacheRight(cache: map<(Fp, Key), Outcome>, asked: Probes) {
      forall c, p {:trigger (c, metas[p].key) in cache} {:trigger Heard(g, asked, c, p)} :: c in metas && p in metas ==>
        ((c, metas[p].key) in cache <==> Heard(g, asked, c, p).Some?)
        && ((c, metas[p].key) in cache ==>
              cache[(c, metas[p].key)].conclusion.status == Told(g, asked, c, p))
    }

    ghost predicate ReachRight(r: set<Fp>) {
      forall p {:trigger p in r} :: p in r <==> CanReach(g, p)
    }

    ghost predicate Valid()
      reads this, rev
    {
      && Wired() && SignaturesRight(sigCache) && ReachRight(reachable)
      && CacheRight(rev.cache, asked) && rev.Books() == books(asked)
    }

    ghost function State(): Snapshot
      reads this
    {
      Snapshot(touched, budget, cutoff, branches, asked)
    }

    constructor (metas: map<Fp, Cert>, bySubject: map<Token, seq<Fp>>, children: map<Token, seq<Fp>>,
                 source: map<Fp, Cert>, question: Question, library: Library, rev: RevocationEvaluator,
                 maxPathLen: nat, maxBranches: nat)
      requires Held(metas, source) && IndexedBySubject(metas, bySubject) && IndexedByIssuer(metas, children)
      requires OwnNames(metas) && rev.Indexed() && maxPathLen >= 1
      requires rev.Books() == BLANK
      ensures this.metas == metas && this.question == question && this.library == library && this.rev == rev
      ensures this.maxPathLen == maxPathLen && this.maxBranches == maxBranches && this.source == source
      ensures g == GraphOf(metas, rev.ev, question, library)
      ensures books == (probes => BooksAfter(metas, rev.ev, probes))
      ensures Valid() && State() == Snapshot({}, 0, false, [], [])
    {
      this.metas, this.bySubject, this.children, this.source := metas, bySubject, children, source;
      this.question, this.library, this.rev := question, library, rev;
      this.maxPathLen, this.maxBranches := maxPathLen, maxBranches;
      touched, sigCache, reachable, branches, budget, cutoff := {}, map[], {}, [], 0, false;
      g := GraphOf(metas, rev.ev, question, library);
      asked, books := [], probes => BooksAfter(metas, rev.ev, probes);
      new;
      forall probes, c, p | c in metas && p in metas
        ensures BooksAfter(metas, rev.ev, probes + [(c, p)])
            == Asked(rev.ev, BooksAfter(metas, rev.ev, probes), metas[c], metas[p])
      {
        OneMoreProbe(metas, rev.ev, probes, c, p);
      }
      reachable := ComputeAnchorReachable();
    }

    lemma ParentMeans(c: Fp, p: Fp)
      requires EdgesRight()
      ensures IsParent(g, c, p) <==> c in metas && p in metas && IssuerMatches(metas[c], metas[p])
    {
    }

    /** `_edge_key_matches`. */
    predicate EdgeKeyMatches(c: Fp, p: Fp)
      requires c in metas && p in metas
    {
      metas[c].aki.Some? ==> metas[p].ski == metas[c].aki
    }

    /** `_compute_anchor_reachable`: a worklist from the present anchors down to their children. */
    method ComputeAnchorReachable() returns (r: set<Fp>)
      requires EdgesRight() && IndexedByIssuer(metas, children)
      ensures ReachRight(r)
    {
      r := question.anchors * metas.Keys;
      var stack: seq<Fp> := Ascending(r);
      forall p | p in r ensures CanReach(g, p) {
        AnchorReaches(g, p);
      }
      while stack != []
        invariant question.anchors * metas.Keys <= r <= metas.Keys
        invariant forall p :: p in r ==> CanReach(g, p)
        invariant forall p :: p in stack ==> p in r
        invariant forall c, p :: p in r && p !in stack && IsParent(g, c, p) ==> c in r
        decreases metas.Keys - r, |stack|
      {
        // The last one is popped in the source; any choice will do.
        var i :| 0 <= i < |stack|;
        var fp, rest := stack[i], stack[..i] + stack[i + 1..];
        assert forall p :: p in stack <==> p == fp || p in rest;
        r, stack := PushChildren(fp, r, rest);
      }
      forall p | CanReach(g, p) ensures p in r {
        ClosedHoldsAll(g, r, p);
      }
    }

    /** One turn of the worklist loop: the children of `fp` join, the new ones are pushed. */
    method PushChildren(fp: Fp, r0: set<Fp>, stack0: seq<Fp>) returns (r: set<Fp>, stack: seq<Fp>)
      requires EdgesRight() && IndexedByIssuer(metas, children) && fp in r0 && r0 <= metas.Keys && CanReach(g, fp)
      ensures r0 <= r <= metas.Keys && (r == r0 ==> stack == stack0)
      ensures forall p :: p in r ==> p in r0 || CanReach(g, p)
      ensures forall p :: p in stack <==> p in stack0 || p in r - r0
      ensures forall c :: IsParent(g, c, fp) ==> c in r
    {
      r, stack := r0, stack0;
      var kids := if metas[fp].subject in children then children[metas[fp].subject] else [];
      for i := 0 to |kids|
        invariant r0 <= r <= metas.Keys && (r == r0 ==> stack == stack0)
        invariant forall p :: p in r ==> p in r0 || CanReach(g, p)
        invariant forall p :: p in stack <==> p in stack0 || p in r - r0
        invariant forall k :: 0 <= k < i && IsParent(g, kids[k], fp) ==> kids[k] in r
      {
        var child := kids[i];
        assert child in children[metas[fp].subject];
        ParentMeans(child, fp);
        if child !in r && EdgeKeyMatches(child, fp) {
          ChildReaches(g, child, fp);
          r := r + {child};
          stack := stack + [child];
        }
      }
      forall c | IsParent(g, c, fp) ensures c in r {
        ParentMeans(c, fp);
        assert c in children[metas[fp].subject];
        var k :| 0 <= k < |kids| && kids[k] == c;
      }
    }

    /** `_parents_of`, less the certificates on the path. */
    method ParentsOf(path: Path) returns (parents: seq<Fp>)
      requires Valid() && OnGraph(g, path)
      ensures parents == Open(g, path)
    {
      var c := Last(path);
      var listed := if metas[c].issuer in bySubject then bySubject[metas[c].issuer] else [];
      var found := [];
      for i := 0 to |listed|
        invariant forall p :: p in found <==> p in listed[..i] && IsParent(g, c, p) && p !in path
      {
        assert listed[..i + 1] == listed[..i] + [listed[i]];
        assert listed[i] in bySubject[metas[c].issuer];
        ParentMeans(c, listed[i]);
        if EdgeKeyMatches(c, listed[i]) && listed[i] !in path {
          found := found + [listed[i]];
        }
      }
      assert listed[..|listed|] == listed;
      forall p ensures p in found <==> IsParent(g, c, p) && p !in path {
        ParentMeans(c, p);
        assert p in metas && metas[p].subject == metas[c].issuer ==> p in bySubject[metas[c].issuer];
      }
      parents := Ascending(Elements(found));
      AscendingUnique(parents, Open(g, path));
    }

    /** `_verify_edge_signature`, remembered per pair of certificates. */
    method VerifyEdgeSignature(c: Fp, p: Fp) returns (ok: bool)
      requires c in metas && p in metas && SignaturesRight(sigCache)
      modifies this`sigCache
      ensures ok == EdgeSignatureOk(metas[c], metas[p]) && SignaturesRight(sigCache)
    {
      if (c, p) in sigCache {
        return sigCache[(c, p)];
      }
      ok := false;
      if metas[c].sigAlgKnown && metas[p].key.inProfile {
        ok := metas[p].key in metas[c].verifiesUnder;
      }
      sigCache := sigCache[(c, p) := ok];
    }

    method CountBelow(path: Path) returns (below: nat)
      requires Held(metas, source) && AllIn(metas, path)
      ensures below == BelowCount(metas, path, |path|)
    {
      below := 0;
      for i := 0 to |path|
        invariant below == BelowCount(metas, path, i)
      {
        var c := source[path[i]];
        if c.isCa && !c.SelfIssued() {
          below := below + 1;
        }
      }
    }

    /** The checks of `_edge_checks` that come before revocation. */
    method PlainChecks(path: Path, p: Fp) returns (failure: Option<Failure>)
      requires Held(metas, source) && OwnNames(metas) && SignaturesRight(sigCache) && AllIn(metas, path) && p in metas
      modifies this`sigCache
      ensures failure == PlainFailure(metas, question.signedAt, path, p) && SignaturesRight(sigCache)
    {
      var cert, parent, at := source[Last(path)], source[p], question.signedAt;
      if parent.unsupported {
        return Some(Failure(parent.fp, Unsupported));
      }
      var signed := VerifyEdgeSignature(Last(path), p);
      if !signed {
        return Some(Failure(cert.fp, SignatureInvalid));
      }
      if at < parent.notBefore {
        return Some(Failure(parent.fp, NotYetValid));
      }
      if at > parent.notAfter {
        return Some(Failure(parent.fp, Expired));
      }
      if !parent.isCa {
        return Some(Failure(parent.fp, NotACa));
      }
      if parent.keyUsage.Some? && KeyCertSign !in parent.keyUsage.value {
        return Some(Failure(parent.fp, NoKeyCertSign));
      }
      if parent.pathLen.Some? {
        var below := CountBelow(path);
        if below > parent.pathLen.value {
          return Some(Failure(parent.fp, PathLenExceeded));
        }
      }
      failure := None;
    }

    /** `_edge_checks`: the plain checks, then the revocation status of the child. */
    method EdgeChecks(path: Path, p: Fp) returns (failure: Option<Failure>)
      requires Valid() && OnGraph(g, path) && IsParent(g, Last(path), p)
      modifies this`sigCache, this`asked, rev
      ensures Valid() && failure == EdgeFailure(Recalling(g, old(asked)), path, p)
      ensures asked == old(asked) + Entered(g, path, p).probes
    {
      hide PlainFailure, StatusIn, CanReach, Asked, EdgeFailure, Told, Heard;
      EdgeCases(g, asked, path, p);
      failure := PlainChecks(path, p);
      if failure == None {
        failure := AskStatus(path, p);
      }
    }

    method AskStatus(path: Path, p: Fp) returns (failure: Option<Failure>)
      requires EdgesRight() && StatusRight() && LedgerRight() && Held(metas, source) && OwnNames(metas) && rev.Indexed()
      requires CacheRight(rev.cache, asked) && rev.Books() == books(asked)
      requires AllIn(metas, path) && IsParent(g, Last(path), p)
      modifies this`asked, rev
      ensures CacheRight(rev.cache, asked) && rev.Books() == books(asked)
      ensures failure == StatusFailure(Last(path), Told(g, old(asked), Last(path), p))
      ensures asked == old(asked) + [(Last(path), p)]
    {
      hide Told, Heard;
      var cert, parent := source[Last(path)], source[p];
      ParentMeans(Last(path), p);
      CacheStaysRight(rev.Books(), asked, Last(path), p);
      ToldAlike(g, asked, asked + [(Last(path), p)], Last(path), p);
      var outcome := rev.Status(cert, parent);
      asked := asked + [(Last(path), p)];
      failure := if outcome.conclusion.status == GoodStatus then None
                 else Some(Failure(cert.fp, RevocationNotGood(outcome.conclusion.status)));
    }

    /** One more question leaves the cache in step with the questions asked. */
    lemma CacheStaysRight(l: Ledger, asked: Probes, c: Fp, p: Fp)
      requires StatusRight() && OwnNames(metas) && CacheRight(l.cache, asked) && c in metas && p in metas
      ensures CacheRight(Asked(rev.ev, l, metas[c], metas[p]).cache, asked + [(c, p)])
    {
      var more, after := asked + [(c, p)], Asked(rev.ev, l, metas[c], metas[p]).cache;
      assert more[..|asked|] == asked;
      forall d, i | d in metas && i in metas
        ensures (d, metas[i].key) in after <==> Heard(g, more, d, i).Some?
        ensures (d, metas[i].key) in after ==> after[(d, metas[i].key)].conclusion.status == Told(g, more, d, i)
      {
        assert metas[c].fp == c && g.key(p) == metas[p].key && g.key(i) == metas[i].key;
        if (d, metas[i].key) !in l.cache && (d, metas[i].key) in after {
          assert d == c;
          assert g.status(c, p) == StatusIn(metas, rev.ev, c, p);
          assert after[(d, metas[i].key)].conclusion == ConclusionOf(rev.ev, metas[c], AuthorityOf(metas[p]));
        }
      }
    }

    /** `_terminal_checks`. */
    method TerminalChecks(path: Path) returns (failure: Option<Failure>)
      requires Valid() && OnGraph(g, path)
      ensures failure == g.terminal(path)
    {
      assert TerminalFailure(CertsAlong(metas, path), question, library) == g.terminal(path);
      var anchor := source[Last(path)];
      var certs := CertsAlong(metas, path);
      if anchor.unsupported {
        return Some(Failure(anchor.fp, Unsupported));
      }
      if question.signedAt < anchor.notBefore {
        return Some(Failure(anchor.fp, NotYetValid));
      }
      if question.signedAt > anchor.notAfter {
        return Some(Failure(anchor.fp, Expired));
      }
      NameConstraints.NameVerdictMeans(library.Matcher(), NamesAlong(certs));
      var nc := NameConstraints.CheckNameConstraints(library.Matcher(), NamesAlong(certs));
      if nc.Breach? {
        return Some(Failure(certs[nc.position].fp, NameConstraintBroken(nc.fault)));
      }
      Policies.VerdictMeans(PoliciesAlong(certs), question.initialPolicySet);
      var pol := Policies.EvaluatePolicies(PoliciesAlong(certs), question.initialPolicySet);
      if pol.Fail? {
        return Some(Failure(certs[pol.position].fp, PolicyBroken(pol.fault)));
      }
      failure := None;
    }

    /** `_spend`: one more step; true when the budget is exceeded. */
    method SpendOne() returns (exhausted: bool)
      requires Valid()
      modifies this`budget
      ensures Valid() && budget == old(budget) + 1 && (exhausted <==> budget > maxBranches)
    {
      budget := budget + 1;
      exhausted := budget > maxBranches;
    }

    /** A rejected branch, written down when recording. */
    method RecordBranch(path: Path, failure: Failure, record: bool)
      requires Valid()
      modifies this`branches
      ensures Valid() && State() == After(old(State()), Reject(path, failure), record)
    {
      if record {
        branches := branches + [Branch(path, failure)];
      }
    }

    /** The first half of a turn: a step is spent, the candidate touched and the edge checked. */
    method EnterEdge(path: Path, p: Fp, ghost record: bool) returns (exhausted: bool, failure: Option<Failure>)
      requires Valid() && OnGraph(g, path) && IsParent(g, Last(path), p)
      modifies this`budget, this`touched, this`sigCache, this`asked, rev
      ensures Valid() && (exhausted <==> old(budget) + 1 > maxBranches)
      ensures !exhausted ==> failure == EdgeFailure(Recalling(g, old(asked)), path, p)
      ensures !exhausted ==> State() == After(old(State()), Entered(g, path, p), record)
    {
      failure := None;
      exhausted := SpendOne();
      if !exhausted {
        touched := touched + {p};
        failure := EdgeChecks(path, p);
      }
    }

    /** A visit that started in `before` ended with `a`: out of budget just when its full cost
        exceeds what was left, and otherwise as the specification says. */
    ghost predicate Ended(before: Snapshot, v: Visit, record: bool, a: Answer)
      reads this, rev
    {
      && (a == Exhausted <==> before.budget + v.spent > maxBranches)
      && (a != Exhausted ==>
            a == (match v.found case Some(q) => FoundPath(q) case None => NotFound)
            && State() == After(before, v, record))
    }

    method IsAnchor(fp: Fp) returns (yes: bool)
      requires Valid()
      ensures yes <==> fp in g.anchors
    {
      yes := fp in question.anchors;
    }

    method IsReachable(fp: Fp) returns (yes: bool)
      requires Valid()
      ensures yes <==> CanReach(g, fp)
    {
      yes := fp in reachable;
    }

    method NoteCutoff(ghost v: Visit, ghost record: bool)
      requires Valid() && v.found == None
      modifies this`cutoff
      ensures Valid()
      ensures forall s :: old(State()) == After(s, v, record) ==> State() == After(s, v.(cutoff := true), record)
    {
      cutoff := true;
    }

    /** A step is spent, and then a visit is done in full or runs out of budget. */
    lemma EndedAfterSpend(start: Snapshot, spent: Snapshot, v: Visit, record: bool, a: Answer)
      requires spent == After(start, Spend(1), record) && Ended(spent, v, record, a)
      ensures Ended(start, Join(Spend(1), v), record, a)
    {
      AfterJoin(start, Spend(1), v, record);
    }

    /** The part of `_dfs` for an anchor: the rules on the whole path. */
    method FinishAtAnchor(path: Path, record: bool) returns (a: Answer)
      requires Valid() && OnGraph(g, path) && budget <= maxBranches
      modifies this`branches
      ensures Valid() && Ended(old(State()), AtAnchor(g, path), record, a)
    {
      hide Valid;
      ghost var start := State();
      var failure := TerminalChecks(path);
      if failure == None {
        assert After(start, AtAnchor(g, path), record) == start;
        return FoundPath(path);
      }
      RecordBranch(path, failure.value, record);
      a := NotFound;
    }

    /** `_dfs`. */
    method Dfs(path: Path, depth: int, record: bool) returns (a: Answer)
      requires Valid() && OnGraph(g, path)
      modifies this, rev
      ensures Valid() && Ended(old(State()), Explore(g, old(asked), path, depth), record, a)
      decreases g.certs - Elements(path), 2, 0
    {
      hide Valid, Explore, Expanded, AtAnchor, Ended;
      ghost var start := State();
      ExploreCases(g, asked, path, depth);
      var out := SpendOne();
      if out {
        OutOfBudget(start, Explore(g, asked, path, depth), record);
        return Exhausted;
      }
      ghost var spent := State();
      assert spent == After(start, Spend(1), record);
      var anchored := IsAnchor(Last(path));
      if anchored {
        a := FinishAtAnchor(path, record);
        EndedAfterSpend(start, spent, AtAnchor(g, path), record, a);
      } else {
        a := Expand(path, depth, record);
        EndedAfterSpend(start, spent, Expanded(g, start.asked, path, depth), record, a);
      }
    }

    lemma OutOfBudget(start: Snapshot, v: Visit, record: bool)
      requires start.budget + v.spent > maxBranches
      ensures Ended(start, v, record, Exhausted)
    {
    }

    /** The part of `_dfs` for a certificate that is no anchor. */
    method Expand(path: Path, depth: int, record: bool) returns (a: Answer)
      requires Valid() && OnGraph(g, path) && budget <= maxBranches
      modifies this, rev
      ensures Valid() && Ended(old(State()), Expanded(g, old(asked), path, depth), record, a)
      decreases g.certs - Elements(path), 1, 1
    {
      hide Valid, ExploreFirst;
      var parents := ParentsOf(path);
      if parents == [] {
        RecordBranch(path, Failure(Last(path), NoIssuer), record);
        return NotFound;
      }
      a := TryParents(path, parents, depth, record);
    }

    /** The loop of `_dfs` over the issuer candidates. */
    method TryParents(path: Path, parents: seq<Fp>, depth: int, record: bool) returns (a: Answer)
      requires Valid() && OnGraph(g, path) && budget <= maxBranches
      requires forall p :: p in parents ==> p in g.certs && IsParent(g, Last(path), p) && p !in path
      modifies this, rev
      ensures Valid() && Ended(old(State()), ExploreFirst(g, old(asked), path, parents, |parents|, depth), record, a)
      decreases g.certs - Elements(path), 1, 0
    {
      hide Valid, Explore, ExploreFirst, ExploreOne, Open, CanReach, EdgeFailure;
      ghost var start := State();
      FirstNone(g, asked, path, parents, depth);
      var i := 0;
      while i < |parents|
        invariant 0 <= i <= |parents| && Valid()
        invariant ExploreFirst(g, start.asked, path, parents, i, depth).found == None
        invariant State() == After(start, ExploreFirst(g, start.asked, path, parents, i, depth), record)
        invariant budget <= maxBranches
      {
        ghost var before := ExploreFirst(g, start.asked, path, parents, i, depth);
        AfterJoin(start, before, ExploreOne(g, asked, path, parents[i], depth), record);
        FirstCases(g, start.asked, path, parents, i, depth);
        FirstCosts(g, start.asked, path, parents, i + 1, |parents|, depth);
        a := TryParent(path, parents[i], depth, record);
        if a != NotFound {
          return;
        }
        i := i + 1;
      }
      a := NotFound;
    }

    /** One turn of that loop. */
    method TryParent(path: Path, p: Fp, depth: int, record: bool) returns (a: Answer)
      requires Valid() && OnGraph(g, path) && IsParent(g, Last(path), p) && p !in path
      modifies this, rev
      ensures Valid() && Ended(old(State()), ExploreOne(g, old(asked), path, p, depth), record, a)
      decreases g.certs - Elements(path), 0, 0
    {
      hide Valid, Explore, ExploreFirst, ExploreOne, Open, EdgeFailure, CanReach;
      ghost var start, here := State(), Entered(g, path, p);
      OneCases(g, asked, path, p, depth);
      var out, failure := EnterEdge(path, p, record);
      if out {
        return Exhausted;
      }
      if failure.Some? {
        AfterJoin(start, here, Reject(path + [p], failure.value), record);
        RecordBranch(path + [p], failure.value, record);
        return NotFound;
      }
      var anchored := IsAnchor(p);
      if !anchored {
        var open := IsReachable(p);
        if !open {
          AfterJoin(start, here, Reject(path + [p], Failure(p, NoTrustedAnchor)), record);
          RecordBranch(path + [p], Failure(p, NoTrustedAnchor), record);
          return NotFound;
        }
        if depth <= 1 {
          NoteCutoff(here, record);
          return NotFound;
        }
      }
      Smaller(g, path, p);
      AfterJoin(start, here, Explore(g, asked, path + [p], depth - 1), record);
      a := Dfs(path + [p], depth - 1, record);
    }

    /** The start of `search`: the leaf is touched and its own checks made. */
    method CheckLeaf(leaf: Fp) returns (failure: Option<Failure>)
      requires Valid() && leaf in g.certs
      modifies this`touched
      ensures Valid() && touched == old(touched) + {leaf} && failure == g.leafCheck(leaf)
    {
      touched := touched + {leaf};
      var cert, at := source[leaf], question.signedAt;
      assert g.leafCheck(leaf) == LeafFailure(metas[leaf], question.signedAt);
      if cert.unsupported {
        return Some(Failure(cert.fp, Unsupported));
      }
      if at < cert.notBefore {
        return Some(Failure(cert.fp, NotYetValid));
      }
      if at > cert.notAfter {
        return Some(Failure(cert.fp, Expired));
      }
      if cert.keyUsage.Some? && DigitalSignature !in cert.keyUsage.value {
        return Some(Failure(cert.fp, NoDigitalSignature));
      }
      if cert.eku == None || CodeSigning !in cert.eku.value {
        return Some(Failure(cert.fp, MissingCodeSigning));
      }
      failure := None;
    }

    method ClearCutoff()
      requires Valid()
      modifies this`cutoff
      ensures Valid() && !cutoff
    {
      cutoff := false;
    }

    method ClearBranches()
      requires Valid()
      modifies this`branches
      ensures Valid() && branches == []
    {
      branches := [];
    }

    /** The fields are as the rounds up to depth `n` leave them. */
    ghost predicate Rounded(leaf: Fp, n: nat)
      reads this
      requires leaf in g.certs
    {
      var r := RoundsRun(g, leaf, n);
      touched == r.touched && budget == r.spent && asked == r.probes && branches == [] && (n > 0 ==> cutoff == r.cutoff)
    }

    /** One round of the deepening loop. */
    method OneRound(leaf: Fp, depth: nat) returns (a: Answer)
      requires Valid() && leaf in g.certs && depth >= 1 && Rounded(leaf, depth - 1)
      requires RoundsRun(g, leaf, depth - 1).found == None && RoundsRun(g, leaf, depth - 1).cutoff
      modifies this, rev
      ensures Valid() && (a == Exhausted <==> RoundsRun(g, leaf, depth).spent > maxBranches)
      ensures a != Exhausted ==>
                Rounded(leaf, depth)
                && a == match RoundsRun(g, leaf, depth).found case Some(p) => FoundPath(p) case None => NotFound
    {
      hide Valid, Explore;
      ClearCutoff();
      a := Dfs([leaf], depth, false);
    }

    /** The loop over the depths. */
    method Deepen(leaf: Fp) returns (a: Answer)
      requires Valid() && leaf in g.certs && maxPathLen >= 1 && Rounded(leaf, 0) && budget <= maxBranches
      modifies this, rev
      ensures Valid() && (a == Exhausted <==> RoundsRun(g, leaf, maxPathLen).spent > maxBranches)
      ensures a != Exhausted ==>
                Rounded(leaf, maxPathLen)
                && a == match RoundsRun(g, leaf, maxPathLen).found case Some(p) => FoundPath(p) case None => NotFound
    {
      hide Valid;
      var depth := 1;
      a := NotFound;
      while depth <= maxPathLen
        invariant 1 <= depth <= maxPathLen + 1 && Valid()
        invariant Rounded(leaf, depth - 1) && a == NotFound && budget <= maxBranches
        invariant RoundsRun(g, leaf, depth - 1).found == None
            && (depth <= maxPathLen ==> RoundsRun(g, leaf, depth - 1).cutoff)
      {
        RoundsCost(g, leaf, depth, maxPathLen);
        a := OneRound(leaf, depth);
        if a != NotFound || !cutoff {
          return;
        }
        depth := depth + 1;
      }
    }

    /** `search`. */
    method Search(leaf: Fp) returns (a: Answer, proof: Option<Proof>)
      requires Valid() && leaf in g.certs && maxPathLen >= 1
      requires State() == Snapshot({}, 0, false, [], [])
      modifies this, rev
      ensures Valid()
      ensures var s := SearchRun(g, leaf, maxPathLen);
              && (a == Exhausted <==> s.spent > maxBranches)
              && (a != Exhausted ==>
                    a == (match s.path case Some(p) => FoundPath(p) case None => NotFound)
                    && proof == s.proof && touched == s.touched && asked == s.probes)
    {
      hide Valid, Explore, RoundsRun;
      RoundsStart(g, leaf);
      proof := None;
      var failure := CheckLeaf(leaf);
      if failure.Some? {
        return NotFound, Some(Proof(true, [Branch([leaf], failure.value)]));
      }
      a := Deepen(leaf);
      if a != NotFound {
        return;
      }
      ClearBranches();
      ghost var start := State();
      a := Dfs([leaf], maxPathLen, true);
      if a != Exhausted {
        ghost var v := Explore(g, start.asked, [leaf], maxPathLen);
        assert start.branches + v.branches == v.branches;
        a := NotFound;
        proof := Some(Proof(!cutoff, branches));
      }
    }
  }
}
