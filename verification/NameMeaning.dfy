/** What `check_name_constraints` answers, read off the names and subtrees of the certificates:
    hosts by their labels, directory names by their elements, one kind of name at a time. */
module NameMeaning {
  import opened Basics
  import opened NameConstraints

  // ----- Texts -----------------------------------------------------------------------------

  const UPPER := "ABCDEFGHIJKLMNOPQRSTUVWXYZ"
  const LOWER := "abcdefghijklmnopqrstuvwxyz"

  /** Letters are made small one by one, and all other characters stay. */
  lemma LowerMeans(s: string)
    ensures |Lower(s)| == |s|
    ensures forall i, k :: 0 <= i < |s| && 0 <= k < 26 && s[i] == UPPER[k] ==> Lower(s)[i] == LOWER[k]
    ensures forall i :: 0 <= i < |s| && s[i] !in UPPER ==> Lower(s)[i] == s[i]
  {
    forall c: char ensures 'A' <= c <= 'Z' <==> c in UPPER {
      if 'A' <= c <= 'Z' {
        AlphabetAt(c as int - 65);
        assert UPPER[c as int - 65] == c;
      }
    }
    forall k | 0 <= k < 26 ensures LowerChar(UPPER[k]) == LOWER[k] {
      AlphabetAt(k);
    }
  }

  lemma AlphabetAt(k: nat)
    requires k < 26
    ensures UPPER[k] as int == 65 + k && LOWER[k] as int == 97 + k
  {
    var upper, lower := UPPER, LOWER;
    assert |upper| == 26 && |lower| == 26;
  }

  /** A host is compared by its letters made small and without the dots at its end. */
  lemma HostMeans(s: string)
    ensures exists n :: 0 <= n <= |s| && (forall i :: n <= i < |s| ==> s[i] == '.') && (n > 0 ==> s[n - 1] != '.')
                        && Host(s) == Lower(s[..n])
  {
    StripMeans(s);
    var n := |StripDots(s)|;
    assert s[..n] == StripDots(s);
  }

  lemma {:induction false} StripMeans(s: string)
    ensures forall i :: |StripDots(s)| <= i < |s| ==> s[i] == '.'
  {
    if s != "" && s[|s| - 1] == '.' {
      StripMeans(s[..|s| - 1]);
    }
  }

  // ----- One name and one subtree ------------------------------------------------------------

  /** The name's labels end in those of the subtree. */
  ghost predicate DnsWithin(n: Name, c: Name) {
    n.Text? && c.Text? && SuffixOf(Labels(Host(c.text)), Labels(Host(n.text)))
  }

  /** A subtree that starts with a dot holds the hosts with more labels before its own; any other
      holds only the one host. */
  ghost predicate UriWithin(hostOf: HostOf, n: Name, c: Name) {
    n.Text? && c.Text? && hostOf(n.text).Some?
    && var host := Lower(hostOf(n.text).value);
    if c.text != "" && c.text[0] == '.' then
      SuffixOf(Labels(Lower(c.text[1..])), Labels(host)) && |Labels(Lower(c.text[1..]))| < |Labels(host)|
    else host == Lower(c.text)
  }

  /** The name starts with the elements of the subtree. */
  predicate DirWithin(n: Name, c: Name) {
    n.Directory? && c.Directory? && |c.rdns| <= |n.rdns|
    && forall i :: 0 <= i < |c.rdns| ==> n.rdns[i] == c.rdns[i]
  }

  lemma DirMatchesByElements(hostOf: HostOf, n: Name, c: Name)
    ensures Matches(hostOf, Dir, n, c) <==> DirWithin(n, c)
  {
  }

  lemma DnsMatchesWithin(hostOf: HostOf, n: Name, c: Name)
    ensures Matches(hostOf, Dns, n, c) <==> DnsWithin(n, c)
  {
    hide Host, Labels, SuffixOf, DnsMatches;
    if n.Text? && c.Text? {
      DnsMatchesByLabels(n.text, c.text);
    }
  }

  lemma UriMatchesByLabels(hostOf: HostOf, n: Name, c: Name)
    ensures Matches(hostOf, Uri, n, c) <==> UriWithin(hostOf, n, c)
  {
    hide Labels;
    if n.Text? && c.Text? && hostOf(n.text).Some? && c.text != "" && c.text[0] == '.' {
      var host, domain := Lower(hostOf(n.text).value), Lower(c.text[1..]);
      assert Lower(c.text) == "." + domain;
      EndsByLabels(host, domain);
    }
  }

  lemma EndsByLabels(host: string, domain: string)
    ensures EndsWith(host, "." + domain) && host != domain <==>
              SuffixOf(Labels(domain), Labels(host)) && |Labels(domain)| < |Labels(host)|
  {
    hide Labels;
    if EndsWith(host, "." + domain) {
      EndingGivesLabels(host, domain);
      JoinOfLabels(host);
      JoinOfLabels(domain);
    }
    if SuffixOf(Labels(domain), Labels(host)) && |Labels(domain)| < |Labels(host)| {
      LabelsGiveEnding(host, domain);
    }
  }

  // ----- One kind of name along a path ---------------------------------------------------------

  /** The names of one kind that a certificate has, permits below it and excludes below it. */
  datatype Row = Row(names: seq<Name>, permitted: seq<Name>, excluded: seq<Name>)

  function DnsRows(path: seq<NameCert>): seq<Row> {
    seq(|path|, i requires 0 <= i < |path| => Row(path[i].names.dns, path[i].permitted.dns, path[i].excluded.dns))
  }

  function UriRows(path: seq<NameCert>): seq<Row> {
    seq(|path|, i requires 0 <= i < |path| => Row(path[i].names.uri, path[i].permitted.uri, path[i].excluded.uri))
  }

  function DirRows(path: seq<NameCert>): seq<Row> {
    seq(|path|, i requires 0 <= i < |path| => Row(path[i].names.dir, path[i].permitted.dir, path[i].excluded.dir))
  }

  /** No name of certificate `i` lies in a subtree that a certificate above, short of the anchor,
      excludes. */
  ghost predicate Avoids(rows: seq<Row>, within: (Name, Name) -> bool, i: nat)
    requires i < |rows|
  {
    forall n, j, c :: n in rows[i].names && i < j < |rows| - 1 && c in rows[j].excluded ==> !within(n, c)
  }

  /** If certificates above, short of the anchor, permit any subtrees, each name lies in one. */
  ghost predicate Inside(rows: seq<Row>, within: (Name, Name) -> bool, i: nat)
    requires i < |rows|
  {
    (exists j :: i < j < |rows| - 1 && rows[j].permitted != []) ==>
      forall n :: n in rows[i].names ==> exists j, c :: i < j < |rows| - 1 && c in rows[j].permitted && within(n, c)
  }

  ghost predicate RowInOrder(rows: seq<Row>, within: (Name, Name) -> bool, i: nat)
    requires i < |rows|
  {
    Avoids(rows, within, i) && Inside(rows, within, i)
  }

  ghost predicate CertInOrder(hostOf: HostOf, path: seq<NameCert>, i: nat)
    requires i < |path|
  {
    && RowInOrder(DnsRows(path), (n, c) => DnsWithin(n, c), i)
    && RowInOrder(UriRows(path), (n, c) => UriWithin(hostOf, n, c), i)
    && RowInOrder(DirRows(path), (n, c) => DirWithin(n, c), i)
  }

  /** When the names of a path are in order; the anchor has no say and is not looked at. */
  ghost predicate NamesInOrder(hostOf: HostOf, path: seq<NameCert>) {
    forall i :: 0 <= i < |path| - 1 ==> CertInOrder(hostOf, path, i)
  }

  /** Of the kinds in the order DNS, URI, directory, the first that is out of order has a name
      that is excluded. */
  ghost predicate ExcludedFirst(hostOf: HostOf, path: seq<NameCert>, i: nat)
    requires i < |path|
  {
    var dns, uri := (n, c) => DnsWithin(n, c), (n, c) => UriWithin(hostOf, n, c);
    if !RowInOrder(DnsRows(path), dns, i) then !Avoids(DnsRows(path), dns, i)
    else if !RowInOrder(UriRows(path), uri, i) then !Avoids(UriRows(path), uri, i)
    else !Avoids(DirRows(path), (n, c) => DirWithin(n, c), i)
  }

  // ----- The readings agree ----------------------------------------------------------------------

  /** The rows list the names of this kind. */
  ghost predicate RowsOf(rows: seq<Row>, path: seq<NameCert>, k: Kind) {
    |rows| == |path| && forall i :: 0 <= i < |path| ==>
      rows[i] == Row(path[i].names.Of(k), path[i].permitted.Of(k), path[i].excluded.Of(k))
  }

  ghost predicate Decides(within: (Name, Name) -> bool, matches: Matcher, k: Kind) {
    forall n, c :: within(n, c) <==> matches(k, n, c)
  }

  lemma RowMeans(matches: Matcher, path: seq<NameCert>, i: nat, k: Kind, rows: seq<Row>,
                 within: (Name, Name) -> bool)
    requires i < |path| && RowsOf(rows, path, k) && Decides(within, matches, k)
    ensures KindFault(matches, path, i, k) == None <==> RowInOrder(rows, within, i)
    ensures KindFault(matches, path, i, k) == Some(ExcludedName) <==> !Avoids(rows, within, i)
  {
    AvoidsMeans(matches, path, i, k, rows, within);
    InsideMeans(matches, path, i, k, rows, within);
  }

  lemma AvoidsMeans(matches: Matcher, path: seq<NameCert>, i: nat, k: Kind, rows: seq<Row>,
                    within: (Name, Name) -> bool)
    requires i < |path| && RowsOf(rows, path, k) && Decides(within, matches, k)
    ensures Avoids(rows, within, i) <==> forall n :: n in path[i].names.Of(k) ==> !Excluded(matches, path, i, k, n)
  {
    if !Avoids(rows, within, i) {
      var n, j, c :| n in rows[i].names && i < j < |rows| - 1 && c in rows[j].excluded && within(n, c);
      assert Constrains(path, j, i) && c in path[j].excluded.Of(k) && matches(k, n, c);
      assert Excluded(matches, path, i, k, n);
    }
    forall n | n in path[i].names.Of(k) && Excluded(matches, path, i, k, n) ensures !Avoids(rows, within, i) {
      var j, c :| Constrains(path, j, i) && c in path[j].excluded.Of(k) && matches(k, n, c);
      assert c in rows[j].excluded && within(n, c);
    }
  }

  lemma InsideMeans(matches: Matcher, path: seq<NameCert>, i: nat, k: Kind, rows: seq<Row>,
                    within: (Name, Name) -> bool)
    requires i < |path| && RowsOf(rows, path, k) && Decides(within, matches, k)
    ensures Inside(rows, within, i) <==>
              (Limited(path, i, k) ==> forall n :: n in path[i].names.Of(k) ==> Permitted(matches, path, i, k, n))
  {
    if Limited(path, i, k) {
      var j, c :| Constrains(path, j, i) && c in path[j].permitted.Of(k);
      assert rows[j].permitted != [];
    }
    if j :| i < j < |rows| - 1 && rows[j].permitted != [] {
      assert Constrains(path, j, i) && rows[j].permitted[0] in path[j].permitted.Of(k);
      assert Limited(path, i, k);
    }
    forall n ensures Permitted(matches, path, i, k, n) <==>
                     exists j, c :: i < j < |rows| - 1 && c in rows[j].permitted && within(n, c)
    {
      if Permitted(matches, path, i, k, n) {
        var j, c :| Constrains(path, j, i) && c in path[j].permitted.Of(k) && matches(k, n, c);
        assert c in rows[j].permitted && within(n, c);
      }
      if j, c :| i < j < |rows| - 1 && c in rows[j].permitted && within(n, c) {
        assert Constrains(path, j, i) && c in path[j].permitted.Of(k) && matches(k, n, c);
      }
    }
  }

  lemma CertMeans(hostOf: HostOf, path: seq<NameCert>, i: nat)
    requires i < |path|
    ensures CertFault(MatcherFor(hostOf), path, i) == None <==> CertInOrder(hostOf, path, i)
    ensures CertFault(MatcherFor(hostOf), path, i) == Some(ExcludedName) <==>
              !CertInOrder(hostOf, path, i) && ExcludedFirst(hostOf, path, i)
  {
    hide KindFault, Avoids, Inside, DnsWithin, UriWithin, DirWithin, Matches;
    forall n, c
      ensures DnsWithin(n, c) <==> Matches(hostOf, Dns, n, c)
      ensures UriWithin(hostOf, n, c) <==> Matches(hostOf, Uri, n, c)
      ensures DirWithin(n, c) <==> Matches(hostOf, Dir, n, c)
    {
      DnsMatchesWithin(hostOf, n, c);
      UriMatchesByLabels(hostOf, n, c);
      DirMatchesByElements(hostOf, n, c);
    }
    RowMeans(MatcherFor(hostOf), path, i, Dns, DnsRows(path), (n, c) => DnsWithin(n, c));
    RowMeans(MatcherFor(hostOf), path, i, Uri, UriRows(path), (n, c) => UriWithin(hostOf, n, c));
    RowMeans(MatcherFor(hostOf), path, i, Dir, DirRows(path), (n, c) => DirWithin(n, c));
  }

  /** Certificate `k` is the one nearest the anchor whose names are out of order, for this fault. */
  ghost predicate BlamedFor(hostOf: HostOf, path: seq<NameCert>, k: nat, fault: NameFault) {
    && k < |path| - 1 && !CertInOrder(hostOf, path, k)
    && (forall j :: k < j < |path| - 1 ==> CertInOrder(hostOf, path, j))
    && (fault == ExcludedName <==> ExcludedFirst(hostOf, path, k))
  }

  /** The result in full: clear exactly when all names are in order; else the certificate nearest the
      anchor that is out of order is blamed, for its first kind of name that is. */
  lemma VerdictInFull(hostOf: HostOf, path: seq<NameCert>)
    ensures match NameVerdict(MatcherFor(hostOf), path)
            case Clear => NamesInOrder(hostOf, path)
            case Breach(fault, k) => BlamedFor(hostOf, path, k, fault)
  {
    hide CertFault, CertInOrder, ExcludedFirst;
    BreachAboveMeans(MatcherFor(hostOf), path, 0);
    forall i | 0 <= i < |path| - 1
      ensures CertFault(MatcherFor(hostOf), path, i) == None <==> CertInOrder(hostOf, path, i)
      ensures CertFault(MatcherFor(hostOf), path, i) == Some(ExcludedName) <==>
                !CertInOrder(hostOf, path, i) && ExcludedFirst(hostOf, path, i)
    {
      CertMeans(hostOf, path, i);
    }
  }

  /** The two readings of a path in order agree. */
  lemma PathMeans(hostOf: HostOf, path: seq<NameCert>)
    ensures PathOk(MatcherFor(hostOf), path) <==> NamesInOrder(hostOf, path)
  {
    hide CertInOrder, ExcludedFirst, CertOk, PathOk;
    VerdictInFull(hostOf, path);
    NameVerdictMeans(MatcherFor(hostOf), path);
  }
}
