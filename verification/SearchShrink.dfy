/** Searching again on what a search touched: the answer stays, the cost does not grow. */
module SearchShrink {
  import opened Basics
  import opened Certificates
  import opened SearchSpec
  import opened SearchPaths
  import opened SearchProof

  /** `h` is `g` with some certificates left out. The revocation status may differ. */
  ghost predicate SubGraph(h: Graph, g: Graph) {
    && h.certs <= g.certs && h.anchors == g.anchors
    && (forall c :: c in h.certs ==> h.key(c) == g.key(c))
    && (forall c :: c in h.certs ==> h.leafCheck(c) == g.leafCheck(c))
    && (forall c, p :: c in h.certs && p in h.certs ==> (p in h.parents(c) <==> p in g.parents(c)))
    && (forall path, p :: OnGraph(h, path) && p in h.certs ==> h.plain(path, p) == g.plain(path, p))
    && (forall path :: OnGraph(h, path) ==> h.terminal(path) == g.terminal(path))
  }

  /** Everything the visit of `g` touched is in `h`, and every status it asked for is the same there. */
  ghost predicate Holds(h: Graph, g: Graph, touched: set<Fp>, probes: seq<(Fp, Fp)>) {
    touched <= h.certs && forall x :: x in probes ==> h.status(x.0, x.1) == g.status(x.0, x.1)
  }

  ghost predicate NoMore(w: Visit, v: Visit) {
    w.found == v.found && (w.cutoff ==> v.cutoff) && w.spent <= v.spent && w.touched <= v.touched
    && forall x :: x in w.probes ==> x in v.probes
  }

  lemma JoinNoMore(a: Visit, b: Visit, c: Visit, d: Visit)
    requires NoMore(a, c) && NoMore(b, d)
    ensures NoMore(Join(a, b), Join(c, d))
  {
  }

  // ----- The questions about one certificate -----------------------------------------------

  function About(probes: seq<(Fp, Fp)>, c: Fp): seq<(Fp, Fp)> {
    if probes == [] then []
    else
      var n := |probes| - 1;
      About(probes[..n], c) + if probes[n].0 == c then [probes[n]] else []
  }

  lemma {:induction false} AboutAppend(a: seq<(Fp, Fp)>, b: seq<(Fp, Fp)>, c: Fp)
    ensures About(a + b, c) == About(a, c) + About(b, c)
  {
    if b == [] {
      assert a + b == a;
    } else {
      var n := |b| - 1;
      AboutAppend(a, b[..n], c);
      assert (a + b)[..|a| + n] == a + b[..n];
    }
  }

  lemma {:induction false} AboutMembers(probes: seq<(Fp, Fp)>, c: Fp)
    ensures forall x :: x in About(probes, c) <==> x in probes && x.0 == c
  {
    if probes != [] {
      AboutMembers(probes[..|probes| - 1], c);
      assert probes == probes[..|probes| - 1] + [probes[|probes| - 1]];
    }
  }

  /** What is on the path, or can reach an anchor in the smaller graph, is asked about alike. */
  ghost predicate AsksAlike(h: Graph, path: Path, w: Visit, v: Visit) {
    forall c :: CanReach(h, c) || c in path ==> About(w.probes, c) == About(v.probes, c)
  }

  ghost predicate NoMoreAt(h: Graph, path: Path, w: Visit, v: Visit) {
    NoMore(w, v) && AsksAlike(h, path, w, v)
  }

  lemma JoinNoMoreAt(h: Graph, path: Path, a: Visit, b: Visit, c: Visit, d: Visit)
    requires NoMoreAt(h, path, a, c) && NoMoreAt(h, path, b, d)
    ensures NoMoreAt(h, path, Join(a, b), Join(c, d))
  {
    hide CanReach, NoMore;
    JoinNoMore(a, b, c, d);
    forall x | CanReach(h, x) || x in path ensures About(Join(a, b).probes, x) == About(Join(c, d).probes, x) {
      AboutAppend(a.probes, b.probes, x);
      AboutAppend(c.probes, d.probes, x);
    }
  }

  // ----- Below a certificate nothing is asked about those above it ---------------------------

  ghost predicate Silent(probes: seq<(Fp, Fp)>, c: Fp) {
    forall x :: x in probes ==> x.0 != c
  }

  lemma {:induction false} VisitSilent(g: Graph, path: Path, depth: int, c: Fp)
    requires OnGraph(g, path) && c in path && c != Last(path)
    ensures Silent(VisitAt(g, path, depth).probes, c)
    decreases g.certs - Elements(path), 2, 0
  {
    if Last(path) !in g.anchors {
      TriedSilent(g, path, Open(g, path), |Open(g, path)|, depth, c);
    }
  }

  lemma {:induction false} TriedSilent(g: Graph, path: Path, parents: seq<Fp>, n: nat, depth: int, c: Fp)
    requires OnGraph(g, path) && c in path && c != Last(path) && n <= |parents|
    requires forall p :: p in parents ==> p in g.certs && p !in path
    ensures Silent(Tried(g, path, parents, n, depth).probes, c)
    decreases g.certs - Elements(path), 1, n
  {
    hide Try;
    if n > 0 {
      TriedSilent(g, path, parents, n - 1, depth, c);
      TrySilent(g, path, parents[n - 1], depth, c);
    }
  }

  lemma {:induction false} TrySilent(g: Graph, path: Path, p: Fp, depth: int, c: Fp)
    requires OnGraph(g, path) && c in path && c != Last(path) && p in g.certs && p !in path
    ensures Silent(Try(g, path, p, depth).probes, c)
    decreases g.certs - Elements(path), 0, 0
  {
    hide VisitAt, CanReach, EdgeFailure;
    Smaller(g, path, p);
    VisitSilent(g, path + [p], depth - 1, c);
  }

  lemma {:induction false} AboutNothing(probes: seq<(Fp, Fp)>, c: Fp)
    requires Silent(probes, c)
    ensures About(probes, c) == []
  {
    if probes != [] {
      assert probes[|probes| - 1] in probes;
      AboutNothing(probes[..|probes| - 1], c);
    }
  }

  // ----- What is asked about hangs together --------------------------------------------------

  /** If the smaller graph holds all that a visit touched, and in it a certificate that was asked
      about can reach an anchor, then so can the one the visit started from. */
  lemma {:induction false} VisitHangs(h: Graph, g: Graph, path: Path, depth: int, c: Fp)
    requires SubGraph(h, g) && OnGraph(h, path) && VisitAt(g, path, depth).touched <= h.certs && CanReach(h, c)
    ensures CanReach(h, Last(path)) || Silent(VisitAt(g, path, depth).probes, c)
    decreases g.certs - Elements(path), 2, 0
  {
    if Last(path) !in g.anchors {
      TriedHangs(h, g, path, Open(g, path), |Open(g, path)|, depth, c);
    }
  }

  lemma {:induction false} TriedHangs(h: Graph, g: Graph, path: Path, parents: seq<Fp>, n: nat, depth: int, c: Fp)
    requires SubGraph(h, g) && OnGraph(h, path) && n <= |parents| && CanReach(h, c)
    requires forall p :: p in parents ==> p in g.certs && IsParent(g, Last(path), p) && p !in path
    requires Tried(g, path, parents, n, depth).touched <= h.certs
    ensures CanReach(h, Last(path)) || Silent(Tried(g, path, parents, n, depth).probes, c)
    decreases g.certs - Elements(path), 1, n
  {
    hide CanReach, VisitAt;
    if n > 0 {
      var p := parents[n - 1];
      TriedHangs(h, g, path, parents, n - 1, depth, c);
      if Tried(g, path, parents, n - 1, depth).found == None {
        TryHangs(h, g, path, p, depth, c);
      }
    }
  }

  lemma {:induction false} TryHangs(h: Graph, g: Graph, path: Path, p: Fp, depth: int, c: Fp)
    requires SubGraph(h, g) && OnGraph(h, path) && IsParent(g, Last(path), p) && p !in path && CanReach(h, c)
    requires Try(g, path, p, depth).touched <= h.certs
    ensures CanReach(h, Last(path)) || Silent(Try(g, path, p, depth).probes, c)
    decreases g.certs - Elements(path), 0, 0
  {
    hide VisitAt;
    Smaller(g, path, p);
    assert p in Try(g, path, p, depth).touched;
    if c != Last(path) {
      if EdgeFailure(g, path, p) == None && (p in g.anchors || (CanReach(g, p) && depth > 1)) {
        VisitHangs(h, g, path + [p], depth - 1, c);
        if CanReach(h, p) {
          ChildReaches(h, Last(path), p);
        }
      }
    }
  }

  lemma ReachCarries(h: Graph, g: Graph, p: Fp)
    requires SubGraph(h, g) && CanReach(h, p)
    ensures CanReach(g, p)
  {
    var chain :| Chain(h, chain) && chain[0] == p && Last(chain) in h.anchors;
    assert Chain(g, chain);
  }

  // ----- A found path is made of touched certificates ---------------------------------

  lemma {:induction false} VisitTouches(g: Graph, path: Path, depth: int)
    requires OnGraph(g, path)
    ensures var v := VisitAt(g, path, depth);
            v.found.Some? ==> forall x :: x in v.found.value ==> x in path || x in v.touched
    decreases g.certs - Elements(path), 2, 0
  {
    if Last(path) !in g.anchors {
      TriedTouches(g, path, Open(g, path), |Open(g, path)|, depth);
    }
  }

  lemma {:induction false} TriedTouches(g: Graph, path: Path, parents: seq<Fp>, n: nat, depth: int)
    requires OnGraph(g, path) && n <= |parents|
    requires forall p :: p in parents ==> p in g.certs && p !in path
    ensures var v := Tried(g, path, parents, n, depth);
            v.found.Some? ==> forall x :: x in v.found.value ==> x in path || x in v.touched
    decreases g.certs - Elements(path), 1, n
  {
    hide Try;
    if n > 0 {
      TriedTouches(g, path, parents, n - 1, depth);
      TryTouches(g, path, parents[n - 1], depth);
    }
  }

  lemma {:induction false} TryTouches(g: Graph, path: Path, p: Fp, depth: int)
    requires OnGraph(g, path) && p in g.certs && p !in path
    ensures var v := Try(g, path, p, depth);
            v.found.Some? ==> forall x :: x in v.found.value ==> x in path || x in v.touched
    decreases g.certs - Elements(path), 0, 0
  {
    Smaller(g, path, p);
    VisitTouches(g, path + [p], depth - 1);
  }

  // ----- One visit on the smaller graph ---------------------------------------------------

  lemma {:induction false} VisitShrinks(h: Graph, g: Graph, path: Path, depth: int)
    requires SubGraph(h, g) && OnGraph(h, path) && Climbs(g, path) && (depth >= 1 || Last(path) in g.anchors)
    requires Holds(h, g, VisitAt(g, path, depth).touched, VisitAt(g, path, depth).probes)
    ensures NoMoreAt(h, path, VisitAt(h, path, depth), VisitAt(g, path, depth))
    decreases g.certs - Elements(path), 2, 0
  {
    if Last(path) !in g.anchors {
      TriedShrinks(h, g, path, |Open(g, path)|, depth);
      AllTried(h, g, path, depth);
    }
  }

  lemma AllTried(h: Graph, g: Graph, path: Path, depth: int)
    requires SubGraph(h, g) && OnGraph(h, path) && Last(path) !in g.anchors
    requires InStep(h, g, path, |Open(g, path)|, depth)
    ensures NoMoreAt(h, path, VisitAt(h, path, depth), VisitAt(g, path, depth))
  {
    hide SubGraph, Open, Tried, NoMore, AsksAlike;
    var parents, kids := Open(g, path), Open(h, path);
    CandidatesKept(h, g, path);
    SameAnchors(h, g);
    var v := Tried(g, path, parents, |parents|, depth);
    if parents == [] {
      SameNoMoreAt(h, path, VisitAt(g, path, depth));
    } else {
      SameNoMoreAt(h, path, Spend(1));
      if v.found == None {
        assert kids[..|parents|] == kids && parents[..|parents|] == parents;
      } else {
        var m: nat :| m <= |kids| && NoMoreAt(h, path, Tried(h, path, kids, m, depth), v);
        FoundSame(h, path, Tried(h, path, kids, m, depth), v);
        FoundSticks(h, path, kids, m, |kids|, depth);
        NothingTried(h, path, kids, depth);
      }
      assert kids != [];
      JoinNoMoreAt(h, path, Spend(1), Tried(h, path, kids, |kids|, depth), Spend(1), v);
    }
  }

  lemma SameAnchors(h: Graph, g: Graph)
    requires SubGraph(h, g)
    ensures h.anchors == g.anchors && h.certs <= g.certs
  {
  }

  lemma FoundSame(h: Graph, path: Path, w: Visit, v: Visit)
    requires NoMoreAt(h, path, w, v)
    ensures w.found == v.found
  {
  }

  lemma NothingTried(g: Graph, path: Path, parents: seq<Fp>, depth: int)
    requires OnGraph(g, path)
    requires forall p :: p in parents ==> p in g.certs && p !in path
    ensures Tried(g, path, parents, 0, depth).found == None
  {
  }

  lemma SameNoMoreAt(h: Graph, path: Path, v: Visit)
    ensures NoMoreAt(h, path, v, v)
  {
  }

  lemma CandidatesKept(h: Graph, g: Graph, path: Path)
    requires SubGraph(h, g) && OnGraph(h, path)
    ensures Open(h, path) == Kept(Open(g, path), h.certs)
    ensures |Open(h, path)| <= |Open(g, path)|
  {
    AscendingUnique(Open(h, path), Kept(Open(g, path), h.certs));
    KeptShorter(Open(g, path), h.certs);
  }

  lemma {:induction false} KeptShorter(s: seq<nat>, keep: set<nat>)
    ensures |Kept(s, keep)| <= |s|
  {
    if s != [] {
      KeptShorter(s[1..], keep);
    }
  }

  lemma {:induction false} KeptPrefix(s: seq<nat>, keep: set<nat>, n: nat)
    requires n <= |s| && forall i :: 0 <= i < n ==> s[i] in keep
    ensures n <= |Kept(s, keep)| && Kept(s, keep)[..n] == s[..n]
  {
    if n > 0 {
      var rest, kept := Kept(s[1..], keep), Kept(s, keep);
      assert forall i :: 0 <= i < n - 1 ==> s[1..][i] == s[i + 1];
      KeptPrefix(s[1..], keep, n - 1);
      assert kept == [s[0]] + rest;
      forall i | 0 < i < n ensures kept[i] == s[i] {
        assert kept[i] == rest[..n - 1][i - 1] == s[1..][..n - 1][i - 1];
      }
    }
  }

  lemma {:induction false} FoundSticks(g: Graph, path: Path, parents: seq<Fp>, m: nat, n: nat, depth: int)
    requires OnGraph(g, path) && m <= n <= |parents|
    requires forall p :: p in parents ==> p in g.certs && p !in path
    requires Tried(g, path, parents, m, depth).found.Some?
    ensures Tried(g, path, parents, n, depth) == Tried(g, path, parents, m, depth)
    decreases n
  {
    if m < n {
      FoundSticks(g, path, parents, m, n - 1, depth);
    }
  }

  /** As long as every candidate tried is kept, the two candidate lists run in step. */
  lemma CandidatesInStep(h: Graph, g: Graph, path: Path, n: nat)
    requires SubGraph(h, g) && OnGraph(h, path) && 0 < n <= |Open(g, path)|
    requires n - 1 <= |Open(h, path)| && Open(h, path)[..n - 1] == Open(g, path)[..n - 1]
    requires Open(g, path)[n - 1] in h.certs
    ensures n <= |Open(h, path)| && Open(h, path)[..n] == Open(g, path)[..n]
    ensures Open(h, path)[n - 1] == Open(g, path)[n - 1]
  {
    hide SubGraph, Open, Kept;
    var parents, kids := Open(g, path), Open(h, path);
    CandidatesKept(h, g, path);
    forall i | 0 <= i < n ensures parents[i] in h.certs {
      assert i < n - 1 ==> parents[i] == parents[..n - 1][i] == kids[..n - 1][i] == kids[i];
    }
    KeptPrefix(parents, h.certs, n);
    assert kids[n - 1] == kids[..n][n - 1] == parents[..n][n - 1];
  }

  ghost predicate InStep(h: Graph, g: Graph, path: Path, n: nat, depth: int)
    requires OnGraph(h, path) && OnGraph(g, path) && n <= |Open(g, path)|
  {
    var v, kids := Tried(g, path, Open(g, path), n, depth), Open(h, path);
    if v.found == None then
      n <= |kids| && kids[..n] == Open(g, path)[..n] && NoMoreAt(h, path, Tried(h, path, kids, n, depth), v)
    else
      exists m: nat :: m <= |kids| && NoMoreAt(h, path, Tried(h, path, kids, m, depth), v)
  }

  lemma NothingYet(h: Graph, g: Graph, path: Path, depth: int)
    requires SubGraph(h, g) && OnGraph(h, path)
    ensures InStep(h, g, path, 0, depth)
  {
    hide Open, CanReach;
    assert NoMoreAt(h, path, Spend(0), Spend(0));
  }

  lemma {:induction false} TriedShrinks(h: Graph, g: Graph, path: Path, n: nat, depth: int)
    requires SubGraph(h, g) && OnGraph(h, path) && Climbs(g, path) && Last(path) !in g.anchors && depth >= 1
    requires n <= |Open(g, path)|
    requires Holds(h, g, Tried(g, path, Open(g, path), n, depth).touched,
        Tried(g, path, Open(g, path), n, depth).probes)
    ensures InStep(h, g, path, n, depth)
    decreases g.certs - Elements(path), 1, n
  {
    hide Try, SubGraph, Climbs, NoMoreAt, Open;
    var parents := Open(g, path);
    if n == 0 {
      NothingYet(h, g, path, depth);
    } else {
      var before := Tried(g, path, parents, n - 1, depth);
      TriedShrinks(h, g, path, n - 1, depth);
      if before.found == None {
        TriedNext(h, g, path, n, depth);
      }
    }
  }

  lemma {:induction false} TriedNext(h: Graph, g: Graph, path: Path, n: nat, depth: int)
    requires SubGraph(h, g) && OnGraph(h, path) && Climbs(g, path) && Last(path) !in g.anchors && depth >= 1
    requires 0 < n <= |Open(g, path)|
    requires Holds(h, g, Tried(g, path, Open(g, path), n, depth).touched,
        Tried(g, path, Open(g, path), n, depth).probes)
    requires Tried(g, path, Open(g, path), n - 1, depth).found == None && InStep(h, g, path, n - 1, depth)
    ensures InStep(h, g, path, n, depth)
    decreases g.certs - Elements(path), 0, 1
  {
    var parents, kids := Open(g, path), Open(h, path);
    var p := parents[n - 1];
    var before, t := Tried(g, path, parents, n - 1, depth), Try(g, path, p, depth);
    assert p in t.touched;
    CandidatesInStep(h, g, path, n);
    TryShrinks(h, g, path, p, depth);
    JoinNoMoreAt(h, path, Tried(h, path, kids, n - 1, depth), Try(h, path, p, depth), before, t);
    assert NoMoreAt(h, path, Tried(h, path, kids, n, depth), Tried(g, path, parents, n, depth));
  }

  lemma {:induction false} TryShrinks(h: Graph, g: Graph, path: Path, p: Fp, depth: int)
    requires SubGraph(h, g) && OnGraph(h, path) && Climbs(g, path) && Last(path) !in g.anchors && depth >= 1
    requires IsParent(g, Last(path), p) && p in h.certs && p !in path
    requires Holds(h, g, Try(g, path, p, depth).touched, Try(g, path, p, depth).probes)
    ensures NoMoreAt(h, path, Try(h, path, p, depth), Try(g, path, p, depth))
    decreases g.certs - Elements(path), 0, 0
  {
    hide VisitAt, NoMore, AsksAlike, CanReach, Climbs, EdgeFailure;
    Smaller(g, path, p);
    var next := path + [p];
    EdgeSame(h, g, path, p, depth);
    SameAnchors(h, g);
    var here := Entered(g, path, p);
    SameNoMoreAt(h, path, here);
    if EdgeFailure(g, path, p).Some? {
      SameNoMoreAt(h, path, Try(g, path, p, depth));
    } else {
      ClimbsOn(g, path, p);
      if CanReach(h, p) {
        ReachCarries(h, g, p);
      }
      if p in g.anchors || (CanReach(g, p) && depth > 1) {
        VisitShrinks(h, g, next, depth - 1);
        if p in g.anchors || CanReach(h, p) {
          DeeperNoMore(h, path, p, VisitAt(h, next, depth - 1), VisitAt(g, next, depth - 1));
          JoinNoMoreAt(h, path, here, VisitAt(h, next, depth - 1), here, VisitAt(g, next, depth - 1));
        } else {
          FoundKeepsReach(h, g, path, p, depth);
          PrunedAsksNothing(h, g, path, p, depth);
          JoinNoMoreAt(h, path, here, Reject(next, Failure(p, NoTrustedAnchor)), here, VisitAt(g, next, depth - 1));
        }
      } else {
        CutNoMore(h, g, path, p, depth);
      }
    }
  }

  lemma EdgeSame(h: Graph, g: Graph, path: Path, p: Fp, depth: int)
    requires SubGraph(h, g) && OnGraph(h, path) && p in h.certs && p !in path
    requires Holds(h, g, Try(g, path, p, depth).touched, Try(g, path, p, depth).probes)
    ensures EdgeFailure(h, path, p) == EdgeFailure(g, path, p) && Entered(h, path, p) == Entered(g, path, p)
  {
    if g.plain(path, p) == None {
      assert (Last(path), p) in Try(g, path, p, depth).probes;
    }
  }

  lemma DeeperNoMore(h: Graph, path: Path, p: Fp, w: Visit, v: Visit)
    requires NoMoreAt(h, path + [p], w, v)
    ensures NoMoreAt(h, path, w, v)
  {
    hide CanReach;
  }

  /** A subtree that the smaller graph prunes finds nothing, and asks nothing about what matters there. */
  lemma PrunedAsksNothing(h: Graph, g: Graph, path: Path, p: Fp, depth: int)
    requires SubGraph(h, g) && OnGraph(h, path) && p in h.certs && p !in path && !CanReach(h, p)
    requires VisitAt(g, path + [p], depth - 1).touched <= h.certs && VisitAt(g, path + [p], depth - 1).found == None
    ensures NoMoreAt(h, path, Reject(path + [p], Failure(p, NoTrustedAnchor)), VisitAt(g, path + [p], depth - 1))
  {
    hide CanReach, VisitAt;
    var v := VisitAt(g, path + [p], depth - 1);
    forall c | CanReach(h, c) || c in path ensures About(v.probes, c) == [] {
      if CanReach(h, c) {
        VisitHangs(h, g, path + [p], depth - 1, c);
      } else {
        VisitSilent(g, path + [p], depth - 1, c);
      }
      AboutNothing(v.probes, c);
    }
  }

  lemma CutNoMore(h: Graph, g: Graph, path: Path, p: Fp, depth: int)
    requires SubGraph(h, g) && OnGraph(h, path) && p in h.certs && p !in path
    requires EdgeFailure(g, path, p) == None && EdgeFailure(h, path, p) == None
    requires Entered(h, path, p) == Entered(g, path, p)
    requires p !in g.anchors && (CanReach(h, p) ==> CanReach(g, p)) && (!CanReach(g, p) || depth <= 1)
    ensures NoMoreAt(h, path, Try(h, path, p, depth), Try(g, path, p, depth))
  {
    hide CanReach, VisitAt, EdgeFailure;
  }

  /** What is found through `p` keeps a way from `p` to an anchor. */
  lemma FoundKeepsReach(h: Graph, g: Graph, path: Path, p: Fp, depth: int)
    requires SubGraph(h, g) && OnGraph(h, path) && p in h.certs && p !in path && Climbs(g, path + [p]) && depth > 1
    requires VisitAt(g, path + [p], depth - 1).touched <= h.certs
    ensures VisitAt(g, path + [p], depth - 1).found.Some? ==> CanReach(h, p)
  {
    var next := path + [p];
    var f := VisitAt(g, next, depth - 1).found;
    if f.Some? {
      VisitSound(g, next, depth - 1);
      VisitTouches(g, next, depth - 1);
      var q := f.value;
      ClimbsMeans(g, q);
      forall i: nat | i + 1 < |q| ensures IsParent(h, q[i], q[i + 1]) {
        assert PassesStep(g, q, i) && q[i] in q && q[i + 1] in q;
      }
      assert p == q[..|next|][|path|];
      SuffixReaches(h, q, |path|);
    }
  }

  // ----- The whole search on the smaller graph ------------------------------------------------

  lemma {:induction false} RoundsShrink(h: Graph, g: Graph, leaf: Fp, n: nat)
    requires SubGraph(h, g) && leaf in h.certs && g.leafCheck(leaf) == None
    requires Holds(h, g, Rounds(g, leaf, n).touched, Rounds(g, leaf, n).probes)
    ensures NoMore(Rounds(h, leaf, n), Rounds(g, leaf, n))
  {
    if n > 0 {
      RoundsShrink(h, g, leaf, n - 1);
      RoundShrinks(h, g, leaf, n);
    }
  }

  lemma LeafClimbs(g: Graph, leaf: Fp)
    requires leaf in g.certs
    ensures Climbs(g, [leaf])
  {
  }

  lemma RoundShrinks(h: Graph, g: Graph, leaf: Fp, n: nat)
    requires SubGraph(h, g) && leaf in h.certs && g.leafCheck(leaf) == None && n > 0
    requires Holds(h, g, Rounds(g, leaf, n).touched, Rounds(g, leaf, n).probes)
    requires NoMore(Rounds(h, leaf, n - 1), Rounds(g, leaf, n - 1))
    ensures NoMore(Rounds(h, leaf, n), Rounds(g, leaf, n))
  {
    hide VisitAt, CanReach, AsksAlike, Climbs;
    SameAnchors(h, g);
    var before, after := Rounds(g, leaf, n - 1), Rounds(h, leaf, n - 1);
    if before.found == None && before.cutoff {
      var v := VisitAt(g, [leaf], n);
      assert v.touched <= Rounds(g, leaf, n).touched;
      LeafClimbs(g, leaf);
      VisitShrinks(h, g, [leaf], n);
      if !after.cutoff {
        RoundsStop(h, leaf, n - 1, n);
      } else {
        JoinNoMore(after, VisitAt(h, [leaf], n), before, v);
      }
    }
  }

  /** Searching the smaller graph gives the same path, or again none; it spends no more, and
      touches and asks nothing new. A complete exploration stays complete. */
  lemma SearchShrinks(h: Graph, g: Graph, leaf: Fp, maxPathLen: nat)
    requires SubGraph(h, g) && leaf in h.certs && maxPathLen >= 1
    requires Holds(h, g, SearchOf(g, leaf, maxPathLen).touched, SearchOf(g, leaf, maxPathLen).probes)
    ensures var s, t := SearchOf(g, leaf, maxPathLen), SearchOf(h, leaf, maxPathLen);
            && t.path == s.path && t.spent <= s.spent && t.touched <= s.touched
            && (forall x :: x in t.probes ==> x in s.probes)
            && (s.proof.Some? <==> t.proof.Some?)
            && (s.proof.Some? && s.proof.value.complete ==> t.proof.value.complete)
  {
    if g.leafCheck(leaf) == None {
      RoundsShrink(h, g, leaf, maxPathLen);
      if Rounds(g, leaf, maxPathLen).found == None {
        VisitShrinks(h, g, [leaf], maxPathLen);
      }
    }
  }
}
