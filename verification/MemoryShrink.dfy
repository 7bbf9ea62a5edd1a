/** Shrinking beside the status cache: running the search again on what it touched finds the same
    path, although the cache is asked in another order. A certificate is asked about only where
    a visit arrives at it, and if an anchor can be reached from it in the smaller graph, none
    of the ways to it is pruned there; so whatever is asked again is answered as before. */
module MemoryShrink {
  import opened Basics
  import opened SearchSpec
  import opened SearchPaths
  import opened SearchShrink
  import opened SearchMemory
  import SearchProbes

  // ----- Only what can reach an anchor is asked about ----------------------------------------

  ghost predicate AsksReachable(g: Graph, start: Fp, probes: Probes) {
    forall x :: x in probes ==> x.0 == start || CanReach(g, x.0)
  }

  lemma {:induction false} VisitReachable(g: Graph, path: Path, depth: int)
    requires OnGraph(g, path)
    ensures AsksReachable(g, Last(path), VisitAt(g, path, depth).probes)
    decreases g.certs - Elements(path), 2, 0
  {
    hide CanReach, Tried, Open;
    if Last(path) !in g.anchors {
      TriedReachable(g, path, Open(g, path), |Open(g, path)|, depth);
    }
  }

  lemma {:induction false} TriedReachable(g: Graph, path: Path, parents: seq<Fp>, n: nat, depth: int)
    requires OnGraph(g, path) && n <= |parents|
    requires forall p :: p in parents ==> p in g.certs && p !in path
    ensures AsksReachable(g, Last(path), Tried(g, path, parents, n, depth).probes)
    decreases g.certs - Elements(path), 1, n
  {
    hide CanReach, Try;
    if n > 0 {
      TriedReachable(g, path, parents, n - 1, depth);
      TryReachable(g, path, parents[n - 1], depth);
    }
  }

  lemma {:induction false} TryReachable(g: Graph, path: Path, p: Fp, depth: int)
    requires OnGraph(g, path) && p in g.certs && p !in path
    ensures AsksReachable(g, Last(path), Try(g, path, p, depth).probes)
    decreases g.certs - Elements(path), 0, 0
  {
    hide CanReach, VisitAt, EdgeFailure;
    Smaller(g, path, p);
    VisitReachable(g, path + [p], depth - 1);
    if p in g.anchors {
      AtAnchorNothing(g, path + [p], depth - 1);
    }
  }

  lemma AtAnchorNothing(g: Graph, path: Path, depth: int)
    requires OnGraph(g, path) && Last(path) in g.anchors
    ensures VisitAt(g, path, depth).probes == []
  {
  }

  lemma {:induction false} RoundsReachable(g: Graph, leaf: Fp, n: nat)
    requires leaf in g.certs
    ensures AsksReachable(g, leaf, Rounds(g, leaf, n).probes)
  {
    hide CanReach, VisitAt;
    if n > 0 {
      RoundsReachable(g, leaf, n - 1);
      VisitReachable(g, [leaf], n);
    }
  }

  /** The last visit, which records branches, asks nothing that the rounds have not asked. */
  lemma {:induction false} LastVisitAsked(g: Graph, leaf: Fp, n: nat, max: nat)
    requires leaf in g.certs && 1 <= n <= max && Rounds(g, leaf, n).found == None
    requires n == max || !Rounds(g, leaf, n).cutoff
    ensures forall x :: x in VisitAt(g, [leaf], max).probes ==> x in Rounds(g, leaf, n).probes
  {
    hide VisitAt;
    var before := Rounds(g, leaf, n - 1);
    if !before.cutoff {
      LastVisitAsked(g, leaf, n - 1, max);
    } else if n < max {
      VisitStable(g, [leaf], n, max);
    }
  }

  // ----- The rounds ask in one order ----------------------------------------------------------

  /** Of what the smaller graph asks about a certificate, the larger one has asked the same first. */
  ghost predicate AsksFirst(h: Graph, leaf: Fp, w: Probes, v: Probes) {
    forall c :: CanReach(h, c) || c == leaf ==> About(w, c) <= About(v, c)
  }

  ghost predicate AsksSame(h: Graph, leaf: Fp, w: Probes, v: Probes) {
    forall c :: CanReach(h, c) || c == leaf ==> About(w, c) == About(v, c)
  }

  /** As long as the smaller graph goes on, it asks the same; it may stop earlier. */
  lemma {:induction false} RoundsAskFirst(h: Graph, g: Graph, leaf: Fp, n: nat)
    requires SubGraph(h, g) && leaf in h.certs && leaf in g.certs && g.leafCheck(leaf) == None
    requires Holds(h, g, Rounds(g, leaf, n).touched, Rounds(g, leaf, n).probes)
    ensures AsksFirst(h, leaf, Rounds(h, leaf, n).probes, Rounds(g, leaf, n).probes)
    ensures Rounds(h, leaf, n).cutoff ==> AsksSame(h, leaf, Rounds(h, leaf, n).probes, Rounds(g, leaf, n).probes)
  {
    hide CanReach, VisitAt, About, NoMore, SubGraph, AsksSame, AsksFirst;
    if n == 0 {
      NothingAsked(h, leaf);
    } else {
      RoundsAskFirst(h, g, leaf, n - 1);
      RoundsShrink(h, g, leaf, n - 1);
      NoMoreMeans(Rounds(h, leaf, n - 1), Rounds(g, leaf, n - 1));
      var before, after := Rounds(g, leaf, n - 1), Rounds(h, leaf, n - 1);
      if before.found == None && before.cutoff {
        InCerts(h, g, leaf);
        var v, w := VisitAt(g, [leaf], n), VisitAt(h, [leaf], n);
        assert v.touched <= Rounds(g, leaf, n).touched;
        LeafClimbs(g, leaf);
        VisitShrinks(h, g, [leaf], n);
        if after.cutoff {
          OneMoreRound(h, leaf, after.probes, before.probes, w, v);
        } else {
          OthersGoOn(h, leaf, after.probes, before.probes, v.probes);
        }
      }
    }
  }

  lemma InCerts(h: Graph, g: Graph, leaf: Fp)
    requires SubGraph(h, g) && leaf in h.certs
    ensures leaf in g.certs && OnGraph(h, [leaf])
  {
  }

  lemma NoMoreMeans(w: Visit, v: Visit)
    requires NoMore(w, v)
    ensures w.found == v.found && (w.cutoff ==> v.cutoff)
  {
  }

  lemma NothingAsked(h: Graph, leaf: Fp)
    ensures AsksFirst(h, leaf, [], []) && AsksSame(h, leaf, [], [])
  {
  }

  lemma OneMoreRound(h: Graph, leaf: Fp, a: Probes, b: Probes, w: Visit, v: Visit)
    requires AsksSame(h, leaf, a, b) && NoMoreAt(h, [leaf], w, v)
    ensures AsksSame(h, leaf, a + w.probes, b + v.probes) && AsksFirst(h, leaf, a + w.probes, b + v.probes)
  {
    hide CanReach, NoMore;
    forall c | CanReach(h, c) || c == leaf ensures About(a + w.probes, c) == About(b + v.probes, c) {
      AboutAppend(a, w.probes, c);
      AboutAppend(b, v.probes, c);
      assert c == leaf ==> c in [leaf];
    }
  }

  lemma OthersGoOn(h: Graph, leaf: Fp, a: Probes, b: Probes, more: Probes)
    requires AsksFirst(h, leaf, a, b)
    ensures AsksFirst(h, leaf, a, b + more)
  {
    hide CanReach;
    forall c | CanReach(h, c) || c == leaf ensures About(a, c) <= About(b + more, c) {
      AboutAppend(b, more, c);
    }
  }

  // ----- What was heard first ---------------------------------------------------------------

  /** What is heard about a certificate depends on the questions about it alone. */
  lemma {:induction false} HeardAbout(g: Graph, asked: Probes, c: Fp, p: Fp)
    ensures Heard(g, About(asked, c), c, p) == Heard(g, asked, c, p)
  {
    if asked != [] {
      var n := |asked| - 1;
      HeardAbout(g, asked[..n], c, p);
      if asked[n].0 == c {
        assert About(asked, c)[..|About(asked[..n], c)|] == About(asked[..n], c);
      } else {
        assert About(asked, c) == About(asked[..n], c);
      }
    }
  }

  lemma {:induction false} HeardOnce(g: Graph, asked: Probes, c: Fp, p: Fp)
    requires (c, p) in asked
    ensures Heard(g, asked, c, p).Some?
  {
    var n := |asked| - 1;
    if (c, p) != asked[n] {
      assert asked == asked[..n] + [asked[n]];
      HeardOnce(g, asked[..n], c, p);
    }
  }

  lemma {:induction false} HeardByKeys(h: Graph, g: Graph, asked: Probes, c: Fp, p: Fp)
    requires h.key(p) == g.key(p) && forall x :: x in asked ==> h.key(x.1) == g.key(x.1)
    ensures Heard(h, asked, c, p) == Heard(g, asked, c, p)
  {
    if asked != [] {
      assert asked[|asked| - 1] in asked;
      HeardByKeys(h, g, asked[..|asked| - 1], c, p);
    }
  }

  /** A question that both have asked was answered first by the same issuer. */
  lemma SameFirst(h: Graph, g: Graph, w: Probes, v: Probes, c: Fp, p: Fp)
    requires About(w, c) <= About(v, c) && (c, p) in w
    requires h.key(p) == g.key(p) && forall x :: x in w ==> h.key(x.1) == g.key(x.1)
    ensures Heard(h, w, c, p) == Heard(g, v, c, p) && Heard(h, w, c, p).Some?
  {
    HeardOnce(h, w, c, p);
    HeardByKeys(h, g, w, c, p);
    HeardAbout(g, w, c, p);
    HeardAbout(g, v, c, p);
    HeardStays(g, About(w, c), About(v, c), c, p);
  }

  // ----- The whole run ------------------------------------------------------------------------

  /** The smaller graph with the answers that the larger one's run was given. */
  ghost function Answered(h: Graph, g: Graph, probes: Probes): Graph {
    h.(status := Recalling(g, probes).status)
  }

  lemma AnsweredIsSub(h: Graph, g: Graph, probes: Probes)
    requires SubGraph(h, g)
    ensures SubGraph(Answered(h, g, probes), Recalling(g, probes)) && Restated(Answered(h, g, probes), h)
  {
    var k, m := Answered(h, g, probes), Recalling(g, probes);
    forall path ensures OnGraph(k, path) <==> OnGraph(h, path) {
    }
  }

  /** Whatever the search of the smaller graph asks was asked in the rounds, about what can reach
      an anchor there, and under the keys that both graphs give. */
  lemma AskedInRounds(k: Graph, leaf: Fp, max: nat, x: (Fp, Fp))
    requires leaf in k.certs && max >= 1 && k.leafCheck(leaf) == None && x in SearchOf(k, leaf, max).probes
    ensures x in Rounds(k, leaf, max).probes && (x.0 == leaf || CanReach(k, x.0))
    ensures Rounds(k, leaf, max).probes <= SearchOf(k, leaf, max).probes
    ensures forall y :: y in Rounds(k, leaf, max).probes ==> y.0 in k.certs && y.1 in k.certs
  {
    hide CanReach, Rounds, VisitAt;
    RoundsReachable(k, leaf, max);
    if Rounds(k, leaf, max).found == None {
      LastVisitAsked(k, leaf, max, max);
    }
    SearchProbes.RoundsProbes(k, leaf, max);
  }

  /** The answers given to the larger run are the answers that the smaller one will be given. */
  lemma AnswersCarry(h: Graph, g: Graph, leaf: Fp, max: nat)
    requires SubGraph(h, g) && leaf in h.certs && leaf in g.certs && max >= 1
    requires Holds(h, g, SearchRun(g, leaf, max).touched, SearchRun(g, leaf, max).probes)
    ensures var k := Answered(h, g, SearchRun(g, leaf, max).probes);
            var own := SearchOf(k, leaf, max).probes; Agrees(k, h, own, own)
  {
    hide Rounds, VisitAt, CanReach, SubGraph, SearchRun, SearchOf, Told, Heard, About;
    var probes := SearchRun(g, leaf, max).probes;
    var m, k := Recalling(g, probes), Answered(h, g, probes);
    RunIsSearch(g, leaf, max);
    AnsweredIsSub(h, g, probes);
    SearchShrinks(k, m, leaf, max);
    var own := SearchOf(k, leaf, max).probes;
    SearchParts(k, leaf, max);
    SearchParts(m, leaf, max);
    SubGraphKeys(h, g, leaf);
    if g.leafCheck(leaf) == None {
      RoundsAskFirst(k, m, leaf, max);
      forall x | x in own ensures k.status(x.0, x.1) == Told(h, own, x.0, x.1) {
        AskedInRounds(k, leaf, max, x);
        OneAnswerCarries(h, g, Rounds(k, leaf, max).probes, Rounds(m, leaf, max).probes, own, probes, x.0, x.1);
      }
    }
  }

  lemma SubGraphKeys(h: Graph, g: Graph, leaf: Fp)
    requires SubGraph(h, g) && leaf in h.certs
    ensures h.certs <= g.certs && h.leafCheck(leaf) == g.leafCheck(leaf)
    ensures forall c :: c in h.certs ==> h.key(c) == g.key(c)
  {
  }

  lemma SearchParts(g: Graph, leaf: Fp, max: nat)
    requires leaf in g.certs
    ensures var s := SearchOf(g, leaf, max);
            && (g.leafCheck(leaf).Some? ==> s.probes == [])
            && (g.leafCheck(leaf) == None ==>
                  && Rounds(g, leaf, max).probes <= s.probes && Rounds(g, leaf, max).touched <= s.touched
                  && forall x :: x in Rounds(g, leaf, max).probes ==> x in s.probes)
  {
    hide Rounds, VisitAt;
  }

  lemma OneAnswerCarries(h: Graph, g: Graph, w: Probes, v: Probes, own: Probes, probes: Probes, c: Fp, p: Fp)
    requires About(w, c) <= About(v, c) && (c, p) in w && w <= own && v <= probes
    requires h.key(p) == g.key(p) && forall x :: x in w ==> h.key(x.1) == g.key(x.1)
    requires forall x :: x in w ==> h.status(x.0, x.1) == g.status(x.0, x.1)
    ensures Told(h, own, c, p) == Told(g, probes, c, p)
  {
    hide About;
    SameFirst(h, g, w, v, c, p);
    HeardWhere(h, w, c, p);
    HeardStays(h, w, own, c, p);
    HeardStays(g, v, probes, c, p);
  }

  /** Running again on less, as long as all that was touched is kept and every status that was
      asked for would be found the same, gives the same path or again none. It spends no more
      and touches nothing new, and a complete exploration stays complete. */
  lemma RunShrinks(h: Graph, g: Graph, leaf: Fp, maxPathLen: nat)
    requires SubGraph(h, g) && leaf in h.certs && leaf in g.certs && maxPathLen >= 1
    requires Holds(h, g, SearchRun(g, leaf, maxPathLen).touched, SearchRun(g, leaf, maxPathLen).probes)
    ensures var s, t := SearchRun(g, leaf, maxPathLen), SearchRun(h, leaf, maxPathLen);
            && t.path == s.path && t.spent <= s.spent && t.touched <= s.touched
            && (s.proof.Some? <==> t.proof.Some?)
            && (s.proof.Some? && s.proof.value.complete ==> t.proof.value.complete)
  {
    hide SearchRun, SearchOf, SubGraph;
    var probes := SearchRun(g, leaf, maxPathLen).probes;
    var k := Answered(h, g, probes);
    AnswersCarry(h, g, leaf, maxPathLen);
    RunIsSearchOf(k, h, leaf, maxPathLen);
    RunIsSearch(g, leaf, maxPathLen);
    AnsweredIsSub(h, g, probes);
    SearchShrinks(k, Recalling(g, probes), leaf, maxPathLen);
  }
}
