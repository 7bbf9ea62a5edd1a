/** Chains of issuers just as long as the depth limit, and just too long: the search on the
    simplest graphs on which its limit shows. */
module Cutoffs {
  import opened Basics
  import opened Certificates
  import opened SearchSpec
  import opened SearchPaths
  import opened SearchMemory

  function Between(low: nat, high: int): (r: set<nat>)
    ensures forall i :: i in r <==> low <= i <= high
    decreases high - low
  {
    if high < low then {} else {low} + Between(low + 1, high)
  }

  /** Certificates 0 to `top`, each issued by the next and no other; `anchor` is trusted, and
      every check passes. */
  ghost predicate IsLadder(g: Graph, top: nat, anchor: nat) {
    && g.certs == Between(0, top) && g.anchors == {anchor} && g.leafCheck(0) == None
    && (forall c: Fp, p: Fp :: c <= top && p <= top ==> (p in g.parents(c) <==> p == c + 1))
    && (forall c: Fp, p: Fp :: c <= top && p <= top ==> g.status(c, p) == GoodStatus)
    && (forall path, p :: OnGraph(g, path) && IsParent(g, Last(path), p) ==> g.plain(path, p) == None)
    && (forall path :: OnGraph(g, path) ==> g.terminal(path) == None)
  }

  function Rungs(k: nat): Path {
    seq(k + 1, i => i)
  }

  lemma OnlyNext(g: Graph, top: nat, anchor: nat, k: nat)
    requires IsLadder(g, top, anchor) && k <= top
    ensures OnGraph(g, Rungs(k)) && Last(Rungs(k)) == k
    ensures Open(g, Rungs(k)) == if k < top then [k + 1] else []
    ensures Rungs(k) + [k + 1] == Rungs(k + 1) && k + 1 !in Rungs(k)
    ensures k < top ==> k + 1 in g.certs && EdgeFailure(g, Rungs(k), k + 1) == None && g.plain(Rungs(k), k + 1) == None
  {
    AscendingUnique(Open(g, Rungs(k)), if k < top then [k + 1] else []);
    assert k < top ==> IsParent(g, k, k + 1);
  }

  lemma RungsReach(g: Graph, top: nat, k: nat)
    requires IsLadder(g, top, top) && k <= top
    ensures CanReach(g, k)
  {
    var r := Rungs(top);
    forall i: nat | i + 1 < |r| ensures IsParent(g, r[i], r[i + 1]) {
    }
    SuffixReaches(g, r, k);
  }

  lemma NothingReaches(g: Graph, top: nat, anchor: nat, k: nat)
    requires IsLadder(g, top, anchor) && top < anchor
    ensures !CanReach(g, k)
  {
    forall chain | Chain(g, chain) ensures Last(chain) !in g.anchors {
      assert Last(chain) in chain;
    }
  }

  /** One rung up. */
  lemma OnlyTry(g: Graph, top: nat, anchor: nat, k: nat, depth: int)
    requires IsLadder(g, top, anchor) && k < top && k != anchor
    ensures OnGraph(g, Rungs(k)) && k + 1 in g.certs && k + 1 !in Rungs(k)
    ensures VisitAt(g, Rungs(k), depth) == Join(Spend(1), Join(Spend(0), Try(g, Rungs(k), k + 1, depth)))
  {
    hide Try, CanReach, Open, IsLadder;
    var parents := [k + 1];
    OnlyNext(g, top, anchor, k);
    LadderAnchors(g, top, anchor);
    assert Tried(g, Rungs(k), parents, 0, depth) == Spend(0);
    assert Tried(g, Rungs(k), parents, 1, depth) == Join(Spend(0), Try(g, Rungs(k), k + 1, depth));
  }

  lemma LadderAnchors(g: Graph, top: nat, anchor: nat)
    requires IsLadder(g, top, anchor)
    ensures g.certs == Between(0, top) && g.anchors == {anchor} && g.leafCheck(0) == None
  {
  }

  lemma StepUp(g: Graph, top: nat, k: nat, depth: nat)
    requires IsLadder(g, top, top) && depth >= 1 && k < top
    ensures OnGraph(g, Rungs(k)) && k + 1 in g.certs && k + 1 !in Rungs(k) && OnGraph(g, Rungs(k + 1))
    ensures var here := Visit(None, false, {k + 1}, [(k, k + 1)], 1, []);
            Try(g, Rungs(k), k + 1, depth)
              == if k + 1 < top && depth == 1 then here.(cutoff := true)
                 else Join(here, VisitAt(g, Rungs(k + 1), depth - 1))
  {
    hide VisitAt, CanReach, EdgeFailure, IsLadder, Open;
    OnlyNext(g, top, top, k);
    OnlyNext(g, top, top, k + 1);
    RungsReach(g, top, k + 1);
    LadderAnchors(g, top, top);
  }

  // ----- Up to the limit ---------------------------------------------------------------------

  /** A visit that runs into the depth limit before the anchor. */
  lemma {:induction false} LadderCutsOff(g: Graph, top: nat, k: nat, depth: nat)
    requires IsLadder(g, top, top) && depth >= 1 && k + depth < top
    ensures OnGraph(g, Rungs(k))
    ensures var v := VisitAt(g, Rungs(k), depth);
            && v.found == None && v.cutoff && v.touched == Between(k + 1, k + depth) && v.spent == 2 * depth
            && (k, k + 1) in v.probes
    decreases depth
  {
    hide Try, VisitAt, IsLadder;
    OnlyTry(g, top, top, k, depth);
    StepUp(g, top, k, depth);
    if depth > 1 {
      LadderCutsOff(g, top, k + 1, depth - 1);
    }
  }

  /** A visit whose depth is just enough. */
  lemma {:induction false} LadderFinds(g: Graph, top: nat, k: nat)
    requires IsLadder(g, top, top) && k < top
    ensures OnGraph(g, Rungs(k))
    ensures var v := VisitAt(g, Rungs(k), top - k);
            v.found == Some(Rungs(top)) && v.touched == Between(k + 1, top) && v.spent == 2 * (top - k) + 1
    decreases top - k
  {
    hide Try, VisitAt, IsLadder;
    OnlyTry(g, top, top, k, top - k);
    StepUp(g, top, k, top - k);
    if k + 1 < top {
      LadderFinds(g, top, k + 1);
    } else {
      LadderEnds(g, top);
    }
  }

  lemma LadderEnds(g: Graph, top: nat)
    requires IsLadder(g, top, top)
    ensures OnGraph(g, Rungs(top)) && VisitAt(g, Rungs(top), 0) == Visit(Some(Rungs(top)), false, {}, [], 1, [])
  {
    OnlyNext(g, top, top, top);
  }

  lemma {:induction false} LadderRounds(g: Graph, top: nat, n: nat)
    requires IsLadder(g, top, top) && n < top
    ensures 0 in g.certs
    ensures var r := Rounds(g, 0, n);
            r.found == None && r.cutoff && r.touched == Between(0, n) && r.spent == n * (n + 1)
    ensures n > 0 ==> (0, 1) in Rounds(g, 0, n).probes
  {
    hide VisitAt, IsLadder;
    LadderAnchors(g, top, top);
    if n > 0 {
      assert Rungs(0) == [0];
      LadderRounds(g, top, n - 1);
      LadderCutsOff(g, top, 0, n);
      assert (n - 1) * n + 2 * n == n * (n + 1);
    }
  }

  /** A chain of `n` issuers is found within depth `n`: the path has `n` + 1 certificates, one
      more than the limit says. */
  lemma LimitIsExceeded(g: Graph, n: nat)
    requires IsLadder(g, n, n) && n >= 1
    ensures 0 in g.certs
    ensures var s := SearchOf(g, 0, n);
            s.path == Some(Rungs(n)) && |Rungs(n)| == n + 1 && s.touched == g.certs && s.spent == n * (n + 1) + 1
  {
    hide VisitAt, IsLadder;
    LadderAnchors(g, n, n);
    assert Rungs(0) == [0];
    LadderRounds(g, n, n - 1);
    LadderFinds(g, n, 0);
    assert (n - 1) * n + 2 * n == n * (n + 1);
  }

  /** One issuer more, and nothing is found; the proof says that it is not complete. */
  lemma OneTooMany(g: Graph, n: nat)
    requires IsLadder(g, n + 1, n + 1) && n >= 1
    ensures 0 in g.certs
    ensures var s := SearchOf(g, 0, n);
            && s.path == None && s.proof.Some? && !s.proof.value.complete
            && s.touched == Between(0, n) && s.spent == n * (n + 1) + 2 * n && (0, 1) in s.probes
    ensures ValidPath(g, 0, Rungs(n + 1))
  {
    LadderIsValid(g, n + 1);
    hide VisitAt, IsLadder, ValidPath;
    LadderAnchors(g, n + 1, n + 1);
    LadderRounds(g, n + 1, n);
    assert Rungs(0) == [0];
    LadderCutsOff(g, n + 1, 0, n);
  }

  lemma LadderIsValid(g: Graph, top: nat)
    requires IsLadder(g, top, top)
    ensures ValidPath(g, 0, Rungs(top))
  {
    var r := Rungs(top);
    forall i: nat | i + 1 < |r| ensures PassesStep(g, r, i) {
      OnlyNext(g, top, top, i);
      assert r[..i + 1] == Rungs(i);
    }
    ClimbsMeans(g, r);
  }

  // ----- Without the top ---------------------------------------------------------------------

  lemma FirstRungFails(g: Graph, top: nat, anchor: nat, depth: int)
    requires IsLadder(g, top, anchor) && 1 <= top < anchor
    ensures OnGraph(g, [0]) && 1 in g.certs
    ensures Try(g, [0], 1, depth)
              == Visit(None, false, {1}, [(0, 1)], 1, [Branch([0, 1], Failure(1, NoTrustedAnchor))])
  {
    assert [0] == Rungs(0);
    OnlyNext(g, top, anchor, 0);
    hide CanReach, VisitAt, EdgeFailure;
    NothingReaches(g, top, anchor, 1);
    var here := Visit(None, false, {1}, [(0, 1)], 1, []);
    assert [0] + [1] == [0, 1];
    assert Try(g, [0], 1, depth) == Join(here, Reject([0, 1], Failure(1, NoTrustedAnchor)));
  }

  /** Without its top the ladder is a dead end, seen at once. */
  lemma DeadEnd(g: Graph, top: nat, anchor: nat, depth: int)
    requires IsLadder(g, top, anchor) && 1 <= top < anchor
    ensures OnGraph(g, [0])
    ensures VisitAt(g, [0], depth)
              == Visit(None, false, {1}, [(0, 1)], 2, [Branch([0, 1], Failure(1, NoTrustedAnchor))])
  {
    hide Try, VisitAt, IsLadder;
    assert Rungs(0) == [0];
    OnlyTry(g, top, anchor, 0, depth);
    FirstRungFails(g, top, anchor, depth);
  }

  lemma {:induction false} DeadEndRounds(g: Graph, top: nat, anchor: nat, n: nat)
    requires IsLadder(g, top, anchor) && 1 <= top < anchor && n >= 1
    ensures 0 in g.certs
    ensures Rounds(g, 0, n) == Visit(None, false, {0, 1}, [(0, 1)], 2, [])
  {
    hide VisitAt, IsLadder;
    LadderAnchors(g, top, anchor);
    DeadEnd(g, top, anchor, 1);
    if n > 1 {
      DeadEndRounds(g, top, anchor, n - 1);
    }
  }

  lemma DeadEndSearch(g: Graph, top: nat, anchor: nat, n: nat)
    requires IsLadder(g, top, anchor) && 1 <= top < anchor && n >= 1
    ensures 0 in g.certs
    ensures SearchOf(g, 0, n)
              == Search(None, Some(Proof(true, [Branch([0, 1], Failure(1, NoTrustedAnchor))])), {0, 1},
                        [(0, 1), (0, 1)], 4)
  {
    hide VisitAt, IsLadder;
    LadderAnchors(g, top, anchor);
    DeadEnd(g, top, anchor, n);
    DeadEndRounds(g, top, anchor, n);
  }

  /** With one issuer candidate each, the status cache makes no difference. */
  lemma LadderRun(g: Graph, top: nat, anchor: nat, n: nat)
    requires IsLadder(g, top, anchor)
    ensures 0 in g.certs && SearchRun(g, 0, n) == SearchOf(g, 0, n)
  {
    CacheMakesNoDifference(g, 0, n);
  }
}
