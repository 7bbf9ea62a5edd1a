/** Name constraints along a path (app/pki.py, `check_name_constraints` and its matchers).

    A path is listed leaf first and ends at the trust anchor, whose own constraints
    and names are not looked at.  `HostOf` stands for the host part of a URI. */
module NameConstraints {
  import opened Basics

  type Rdns = seq<seq<(string, string)>>
  type HostOf = string -> Option<string>

  datatype Kind = Dns | Uri | Dir
  datatype Name = Text(text: string) | Directory(rdns: Rdns)

  datatype ByKind = ByKind(dns: seq<Name>, uri: seq<Name>, dir: seq<Name>) {
    function Of(k: Kind): seq<Name> {
      match k case Dns => dns case Uri => uri case Dir => dir
    }

    function Plus(that: ByKind): (r: ByKind)
      ensures forall k :: r.Of(k) == Of(k) + that.Of(k)
    {
      ByKind(dns + that.dns, uri + that.uri, dir + that.dir)
    }
  }

  const NOTHING := ByKind([], [], [])

  /** `names` holds the SAN names, with the subject first among the directory names. */
  datatype NameCert = NameCert(names: ByKind, permitted: ByKind, excluded: ByKind)

  // ----- Matching one name against one subtree -----------------------------

  function LowerChar(c: char): char {
    if 'A' <= c <= 'Z' then (c as int + 32) as char else c
  }

  function Lower(s: string): (r: string)
    ensures |r| == |s|
  {
    seq(|s|, i requires 0 <= i < |s| => LowerChar(s[i]))
  }

  /** `rstrip(".")`. */
  function StripDots(s: string): (r: string)
    ensures r <= s && (r == "" || r[|r| - 1] != '.')
  {
    if s == "" || s[|s| - 1] != '.' then s else StripDots(s[..|s| - 1])
  }

  predicate EndsWith(s: string, suffix: string) {
    |suffix| <= |s| && s[|s| - |suffix|..] == suffix
  }

  function Host(s: string): string {
    Lower(StripDots(s))
  }

  predicate DnsMatches(name: string, constraint: string) {
    Host(name) == Host(constraint) || EndsWith(Host(name), "." + Host(constraint))
  }

  predicate UriMatches(hostOf: HostOf, uri: string, constraint: string) {
    match hostOf(uri)
    case None => false
    case Some(h) =>
      var host, c := Lower(h), Lower(constraint);
      if c != "" && c[0] == '.' then EndsWith(host, c) && host != c[1..] else host == c
  }

  predicate Matches(hostOf: HostOf, k: Kind, n: Name, c: Name) {
    match (k, n, c)
    case (Dns, Text(name), Text(constraint)) => DnsMatches(name, constraint)
    case (Uri, Text(uri), Text(constraint)) => UriMatches(hostOf, uri, constraint)
    case (Dir, Directory(name), Directory(constraint)) => constraint <= name
    case _ => false
  }

  /** The labels of a host name, the pieces between its dots. */
  function Labels(s: string): (r: seq<string>)
    ensures |r| > 0
  {
    if s == "" then [""]
    else if s[0] == '.' then [""] + Labels(s[1..])
    else
      var rest := Labels(s[1..]);
      [[s[0]] + rest[0]] + rest[1..]
  }

  function Join(labels: seq<string>): string
    requires |labels| > 0
  {
    if |labels| == 1 then labels[0] else labels[0] + "." + Join(labels[1..])
  }

  lemma {:induction false} JoinOfLabels(s: string)
    ensures Join(Labels(s)) == s
  {
    if s != "" {
      JoinOfLabels(s[1..]);
      var rest := Labels(s[1..]);
      if s[0] == '.' {
        assert Labels(s)[1..] == rest;
        assert Join(Labels(s)) == "" + "." + Join(rest) == s;
      } else if |rest| > 1 {
        assert Labels(s)[1..] == rest[1..];
        assert Join(Labels(s)) == ([s[0]] + rest[0]) + "." + Join(rest[1..]);
        assert s == [s[0]] + Join(rest);
      }
    }
  }

  lemma {:induction false} LabelsOfJoined(a: string, b: string)
    ensures Labels(a + "." + b) == Labels(a) + Labels(b)
  {
    if a == "" {
      assert a + "." + b == "." + b;
      assert ("." + b)[1..] == b;
    } else {
      var s := a + "." + b;
      assert s[0] == a[0] && s[1..] == a[1..] + "." + b;
      LabelsOfJoined(a[1..], b);
    }
  }

  lemma {:induction false} JoinAppend(p: seq<string>, q: seq<string>)
    requires |p| > 0 && |q| > 0
    ensures Join(p + q) == Join(p) + "." + Join(q)
  {
    if |p| == 1 {
      assert (p + q)[1..] == q;
    } else {
      assert (p + q)[1..] == p[1..] + q;
      JoinAppend(p[1..], q);
      assert Join(p + q) == p[0] + "." + (Join(p[1..]) + "." + Join(q));
    }
  }

  predicate SuffixOf(short: seq<string>, long: seq<string>) {
    |short| <= |long| && long[|long| - |short|..] == short
  }

  lemma EndingGivesLabels(n: string, c: string)
    requires EndsWith(n, "." + c)
    ensures SuffixOf(Labels(c), Labels(n))
  {
    var a := n[..|n| - |c| - 1];
    assert n == a + ("." + c) == a + "." + c;
    LabelsOfJoined(a, c);
    assert (Labels(a) + Labels(c))[|Labels(a)|..] == Labels(c);
  }

  lemma LabelsGiveEnding(n: string, c: string)
    requires SuffixOf(Labels(c), Labels(n))
    ensures n == c || EndsWith(n, "." + c)
  {
    JoinOfLabels(n);
    JoinOfLabels(c);
    var p := Labels(n)[..|Labels(n)| - |Labels(c)|];
    assert Labels(n) == p + Labels(c);
    if |p| == 0 {
      assert p + Labels(c) == Labels(c);
    } else {
      JoinAppend(p, Labels(c));
      EndsWithAppend(Join(p), c);
    }
  }

  lemma EndsWithAppend(a: string, c: string)
    ensures EndsWith(a + "." + c, "." + c)
  {
    assert a + "." + c == a + ("." + c);
  }

  /** A DNS constraint matches exactly the names whose labels end in its labels. */
  lemma DnsMatchesByLabels(name: string, constraint: string)
    ensures DnsMatches(name, constraint) <==> SuffixOf(Labels(Host(constraint)), Labels(Host(name)))
  {
    var n, c := Host(name), Host(constraint);
    if EndsWith(n, "." + c) {
      EndingGivesLabels(n, c);
    } else if SuffixOf(Labels(c), Labels(n)) {
      LabelsGiveEnding(n, c);
    } else {
      assert n != c;
    }
  }

  /** Subtrees nest: what lies in a subtree of a subtree lies in the larger one. */
  lemma SubtreesNest(hostOf: HostOf, k: Kind, n: Name, c: Name, d: Name)
    requires k != Uri && Matches(hostOf, k, n, c) && Matches(hostOf, k, c, d)
    ensures Matches(hostOf, k, n, d)
  {
    if k == Dns {
      DnsMatchesByLabels(n.text, c.text);
      DnsMatchesByLabels(c.text, d.text);
      DnsMatchesByLabels(n.text, d.text);
      var ln, lc, ld := Labels(Host(n.text)), Labels(Host(c.text)), Labels(Host(d.text));
      assert ln[|ln| - |ld|..] == lc[|lc| - |ld|..];
    }
  }

  /** How names match subtrees, kind by kind. */
  type Matcher = (Kind, Name, Name) -> bool

  function MatcherFor(hostOf: HostOf): Matcher {
    (k, n, c) => Matches(hostOf, k, n, c)
  }

  // ----- The rule along a path ---------------------------------------------

  /** Position `j` constrains position `idx`: above it and below the anchor. */
  predicate Constrains(path: seq<NameCert>, j: int, idx: int) {
    0 <= idx < j < |path| - 1
  }

  ghost predicate Excluded(matches: Matcher, path: seq<NameCert>, idx: nat, k: Kind, n: Name) {
    exists j, c :: Constrains(path, j, idx) && c in path[j].excluded.Of(k) && matches(k, n, c)
  }

  ghost predicate Limited(path: seq<NameCert>, idx: nat, k: Kind) {
    exists j, c :: Constrains(path, j, idx) && c in path[j].permitted.Of(k)
  }

  ghost predicate Permitted(matches: Matcher, path: seq<NameCert>, idx: nat, k: Kind, n: Name) {
    exists j, c :: Constrains(path, j, idx) && c in path[j].permitted.Of(k) && matches(k, n, c)
  }

  ghost predicate NameOk(matches: Matcher, path: seq<NameCert>, idx: nat, k: Kind, n: Name) {
    !Excluded(matches, path, idx, k, n) && (Limited(path, idx, k) ==> Permitted(matches, path, idx, k, n))
  }

  ghost predicate CertOk(matches: Matcher, path: seq<NameCert>, idx: nat)
    requires idx < |path|
  {
    forall k, n :: n in path[idx].names.Of(k) ==> NameOk(matches, path, idx, k, n)
  }

  /** Every name of every non-anchor certificate keeps clear of all excluded subtrees above
      it and, if its kind is limited above, lies in some permitted subtree. */
  ghost predicate PathOk(matches: Matcher, path: seq<NameCert>) {
    forall idx :: 0 <= idx < |path| - 1 ==> CertOk(matches, path, idx)
  }

  /** `tight` is `path` with more excluded subtrees here and there. */
  ghost predicate ExcludesMore(tight: seq<NameCert>, path: seq<NameCert>) {
    |tight| == |path| &&
    forall i :: 0 <= i < |path| ==>
      tight[i].names == path[i].names && tight[i].permitted == path[i].permitted
      && forall k, c :: c in path[i].excluded.Of(k) ==> c in tight[i].excluded.Of(k)
  }

  /** Adding excluded subtrees never turns a failure into a pass. */
  lemma ExcludingMoreNeverHelps(matches: Matcher, tight: seq<NameCert>, path: seq<NameCert>)
    requires ExcludesMore(tight, path) && PathOk(matches, tight)
    ensures PathOk(matches, path)
  {
    forall idx, k, n | 0 <= idx < |path| - 1 && n in path[idx].names.Of(k)
      ensures NameOk(matches, path, idx, k, n)
    {
      assert CertOk(matches, tight, idx) && NameOk(matches, tight, idx, k, n);
      assert !Excluded(matches, path, idx, k, n);
      if Limited(path, idx, k) {
        var j, c :| Constrains(path, j, idx) && c in path[j].permitted.Of(k);
        assert Constrains(tight, j, idx) && c in tight[j].permitted.Of(k);
        var j', c' :| Constrains(tight, j', idx) && c' in tight[j'].permitted.Of(k) && matches(k, n, c');
        assert Constrains(path, j', idx) && c' in path[j'].permitted.Of(k);
      }
    }
  }

  // ----- The loops ---------------------------------------------------------

  datatype NameFault = ExcludedName | NotPermittedName
  datatype NameResult = Clear | Breach(fault: NameFault, position: nat)

  /** `acc` lists exactly the subtrees that constrain position `idx`. */
  ghost predicate Gathered(path: seq<NameCert>, idx: nat, permitted: ByKind, excluded: ByKind) {
    (forall k, c :: c in permitted.Of(k) <==> exists j :: Constrains(path, j, idx) && c in path[j].permitted.Of(k))
    && (forall k, c :: c in excluded.Of(k) <==> exists j :: Constrains(path, j, idx) && c in path[j].excluded.Of(k))
  }

  lemma GatherOneMore(path: seq<NameCert>, idx: nat, permitted: ByKind, excluded: ByKind)
    requires 0 < idx < |path| - 1 && Gathered(path, idx, permitted, excluded)
    ensures Gathered(path, idx - 1, permitted.Plus(path[idx].permitted), excluded.Plus(path[idx].excluded))
  {
    forall j ensures Constrains(path, j, idx - 1) <==> j == idx || Constrains(path, j, idx) {
    }
  }

  predicate AnyMatch(matches: Matcher, k: Kind, n: Name, subtrees: seq<Name>) {
    exists c :: c in subtrees && matches(k, n, c)
  }

  // ----- The verdict ---------------------------------------------------------

  /** The first fault of one kind of name: excluded subtrees are looked at before permitted ones. */
  ghost function KindFault(matches: Matcher, path: seq<NameCert>, idx: nat, k: Kind): Option<NameFault>
    requires idx < |path|
  {
    if exists n :: n in path[idx].names.Of(k) && Excluded(matches, path, idx, k, n) then Some(ExcludedName)
    else if Limited(path, idx, k) && exists n :: n in path[idx].names.Of(k) && !Permitted(matches, path, idx, k, n)
    then Some(NotPermittedName)
    else None
  }

  function First(a: Option<NameFault>, b: Option<NameFault>): Option<NameFault> {
    if a.Some? then a else b
  }

  /** The first fault of one certificate: kinds in the order dns, uri, dir. */
  ghost function CertFault(matches: Matcher, path: seq<NameCert>, idx: nat): Option<NameFault>
    requires idx < |path|
  {
    First(KindFault(matches, path, idx, Dns),
          First(KindFault(matches, path, idx, Uri), KindFault(matches, path, idx, Dir)))
  }

  /** The fault nearest the anchor among positions from `idx` up. */
  ghost function BreachAbove(matches: Matcher, path: seq<NameCert>, idx: nat): NameResult
    decreases |path| - idx
  {
    if idx + 1 >= |path| then Clear
    else
      var above := BreachAbove(matches, path, idx + 1);
      if above.Breach? then above
      else match CertFault(matches, path, idx) case Some(f) => Breach(f, idx) case None => Clear
  }

  /** The result of `check_name_constraints`. */
  ghost function NameVerdict(matches: Matcher, path: seq<NameCert>): NameResult {
    BreachAbove(matches, path, 0)
  }

  lemma KindFaultMeans(matches: Matcher, path: seq<NameCert>, idx: nat, k: Kind)
    requires idx < |path|
    ensures KindFault(matches, path, idx, k) == None <==>
              forall n :: n in path[idx].names.Of(k) ==> NameOk(matches, path, idx, k, n)
  {
  }

  lemma CertFaultMeans(matches: Matcher, path: seq<NameCert>, idx: nat)
    requires idx < |path|
    ensures CertFault(matches, path, idx) == None <==> CertOk(matches, path, idx)
  {
    forall k ensures KindFault(matches, path, idx, k) == None <==>
                       forall n :: n in path[idx].names.Of(k) ==> NameOk(matches, path, idx, k, n) {
      KindFaultMeans(matches, path, idx, k);
    }
    assert CertFault(matches, path, idx) == None <==> forall k :: KindFault(matches, path, idx, k) == None;
  }

  lemma {:induction false} BreachAboveMeans(matches: Matcher, path: seq<NameCert>, idx: nat)
    ensures match BreachAbove(matches, path, idx)
            case Clear => forall i :: idx <= i < |path| - 1 ==> CertFault(matches, path, i) == None
            case Breach(f, i) => idx <= i < |path| - 1 && CertFault(matches, path, i) == Some(f)
                                 && forall j :: i < j < |path| - 1 ==> CertFault(matches, path, j) == None
    decreases |path| - idx
  {
    if idx + 1 < |path| {
      BreachAboveMeans(matches, path, idx + 1);
    }
  }

  /** The check is clear exactly when every name of every non-anchor certificate is in order;
      otherwise the certificate nearest the anchor that breaks the rule is blamed. */
  lemma NameVerdictMeans(matches: Matcher, path: seq<NameCert>)
    ensures NameVerdict(matches, path) == Clear <==> PathOk(matches, path)
    ensures var r := NameVerdict(matches, path);
            r.Breach? ==> r.position < |path| - 1 && !CertOk(matches, path, r.position)
                          && forall j :: r.position < j < |path| - 1 ==> CertOk(matches, path, j)
  {
    BreachAboveMeans(matches, path, 0);
    forall i | 0 <= i < |path| - 1 ensures CertFault(matches, path, i) == None <==> CertOk(matches, path, i) {
      CertFaultMeans(matches, path, i);
    }
  }

  // ----- The second pass -------------------------------------------------------

  /** One kind of name of one certificate against the subtrees gathered above it. */
  method CheckKind(matches: Matcher, path: seq<NameCert>, idx: nat, k: Kind, permitted: ByKind, excluded: ByKind)
    returns (fault: Option<NameFault>)
    requires idx < |path| && Gathered(path, idx, permitted, excluded)
    ensures fault == KindFault(matches, path, idx, k)
  {
    var ns := path[idx].names.Of(k);
    for a := 0 to |ns|
      invariant forall n :: n in ns[..a] ==> !Excluded(matches, path, idx, k, n)
    {
      GatheredMeaning(matches, path, idx, permitted, excluded, k, ns[a]);
      if AnyMatch(matches, k, ns[a], excluded.Of(k)) {
        assert ns[a] in path[idx].names.Of(k);
        return Some(ExcludedName);
      }
    }
    assert ns[..|ns|] == ns;
    LimitedMeaning(path, idx, permitted, excluded, k);
    if permitted.Of(k) != [] {
      for a := 0 to |ns|
        invariant forall n :: n in ns[..a] ==> Permitted(matches, path, idx, k, n)
      {
        GatheredMeaning(matches, path, idx, permitted, excluded, k, ns[a]);
        if !AnyMatch(matches, k, ns[a], permitted.Of(k)) {
          assert ns[a] in path[idx].names.Of(k);
          return Some(NotPermittedName);
        }
      }
    }
    fault := None;
  }

  /** The first pass: the subtrees in force at each position, accumulated from the anchor down. */
  method GatherSubtrees(path: seq<NameCert>) returns (perCert: map<nat, (ByKind, ByKind)>)
    requires |path| > 0
    ensures forall i: nat :: i in perCert <==> i < |path| - 1
    ensures forall i :: i in perCert ==> Gathered(path, i, perCert[i].0, perCert[i].1)
  {
    var accP, accE := NOTHING, NOTHING;
    perCert := map[];
    var n := |path| - 1;
    var idx := n;
    while idx > 0
      invariant 0 <= idx <= n
      invariant idx > 0 ==> Gathered(path, idx - 1, accP, accE)
      invariant forall i: nat :: i in perCert <==> idx <= i < n
      invariant forall i :: i in perCert ==> Gathered(path, i, perCert[i].0, perCert[i].1)
    {
      idx := idx - 1;
      perCert := perCert[idx := (accP, accE)];
      if idx > 0 {
        GatherOneMore(path, idx, accP, accE);
      }
      accP, accE := accP.Plus(path[idx].permitted), accE.Plus(path[idx].excluded);
    }
  }

  /** `check_name_constraints`. */
  method CheckNameConstraints(matches: Matcher, path: seq<NameCert>) returns (result: NameResult)
    requires |path| > 0
    ensures result == NameVerdict(matches, path)
  {
    var perCert := GatherSubtrees(path);
    var n := |path| - 1;
    var idx := n;
    while idx > 0
      invariant 0 <= idx <= n
      invariant BreachAbove(matches, path, idx) == Clear
    {
      idx := idx - 1;
      var (perm, excl) := perCert[idx];
      var kinds := [Dns, Uri, Dir];
      var fault := None;
      var i := 0;
      while i < 3 && fault == None
        invariant 0 <= i <= 3
        invariant fault == if i == 0 then None
                           else if i == 1 then KindFault(matches, path, idx, Dns)
                           else if i == 2 then First(KindFault(matches, path, idx, Dns),
                               KindFault(matches, path, idx, Uri))
                           else CertFault(matches, path, idx)
        invariant fault.Some? ==> fault == CertFault(matches, path, idx)
      {
        fault := CheckKind(matches, path, idx, kinds[i], perm, excl);
        i := i + 1;
      }
      if fault.Some? {
        BreachFound(matches, path, idx);
        return Breach(fault.value, idx);
      }
    }
    result := Clear;
  }

  lemma {:induction false} BreachFound(matches: Matcher, path: seq<NameCert>, idx: nat)
    requires idx + 1 < |path| && BreachAbove(matches, path, idx).Breach?
    ensures NameVerdict(matches, path) == BreachAbove(matches, path, idx)
    decreases idx
  {
    if idx > 0 {
      BreachFound(matches, path, idx - 1);
    }
  }

  lemma LimitedMeaning(path: seq<NameCert>, idx: nat, permitted: ByKind, excluded: ByKind, k: Kind)
    requires Gathered(path, idx, permitted, excluded)
    ensures permitted.Of(k) != [] <==> Limited(path, idx, k)
  {
    if permitted.Of(k) != [] {
      assert permitted.Of(k)[0] in permitted.Of(k);
    }
    if Limited(path, idx, k) {
      var j, c :| Constrains(path, j, idx) && c in path[j].permitted.Of(k);
      assert c in permitted.Of(k);
    }
  }

  lemma GatheredMeaning(matches: Matcher, path: seq<NameCert>, idx: nat, permitted: ByKind, excluded: ByKind,
          k: Kind, n: Name)
    requires Gathered(path, idx, permitted, excluded)
    ensures AnyMatch(matches, k, n, excluded.Of(k)) <==> Excluded(matches, path, idx, k, n)
    ensures AnyMatch(matches, k, n, permitted.Of(k)) <==> Permitted(matches, path, idx, k, n)
  {
    if Permitted(matches, path, idx, k, n) {
      var j, c :| Constrains(path, j, idx) && c in path[j].permitted.Of(k) && matches(k, n, c);
      assert c in permitted.Of(k);
    }
    if Excluded(matches, path, idx, k, n) {
      var j, c :| Constrains(path, j, idx) && c in path[j].excluded.Of(k) && matches(k, n, c);
      assert c in excluded.Of(k);
    }
  }
}
