/** Strings in code point order, and sets of strings listed in that order. */
module Strings {

  predicate Less(a: string, b: string) {
    if b == "" then false
    else if a == "" then true
    else a[0] < b[0] || (a[0] == b[0] && Less(a[1..], b[1..]))
  }

  lemma {:induction false} LessStrict(a: string, b: string)
    ensures Less(a, b) ==> !Less(b, a) && a != b
    ensures Less(a, b) || Less(b, a) || a == b
  {
    if a != "" && b != "" {
      LessStrict(a[1..], b[1..]);
      assert a == [a[0]] + a[1..] && b == [b[0]] + b[1..];
    }
  }

  lemma {:induction false} LessTransitive(a: string, b: string, c: string)
    requires Less(a, b) && Less(b, c)
    ensures Less(a, c)
  {
    if a != "" && a[0] == b[0] == c[0] {
      LessTransitive(a[1..], b[1..], c[1..]);
    }
  }

  ghost predicate InOrder(s: seq<string>) {
    forall i, j :: 0 <= i < j < |s| ==> Less(s[i], s[j])
  }

  ghost predicate IsLeast(m: string, s: set<string>) {
    m in s && forall x :: x in s && x != m ==> Less(m, x)
  }

  lemma LeastExists(s: set<string>)
    requires s != {}
    ensures exists m :: IsLeast(m, s)
  {
    var y :| y in s;
    if s == {y} {
      assert IsLeast(y, s);
    } else {
      LeastExists(s - {y});
      var m :| IsLeast(m, s - {y});
      LessStrict(m, y);
      var least := if Less(m, y) then m else y;
      forall x | x in s && x != least ensures Less(least, x) {
        if least == y && x != m {
          LessTransitive(y, m, x);
        }
      }
      assert IsLeast(least, s);
    }
  }

  ghost function Least(s: set<string>): (m: string)
    requires s != {}
    ensures IsLeast(m, s)
  {
    LeastExists(s);
    var m :| IsLeast(m, s);
    m
  }

  /** Python's `sorted` on a set of strings. */
  ghost function Sorted(s: set<string>): (r: seq<string>)
    ensures InOrder(r)
    ensures forall x :: x in r <==> x in s
  {
    if s == {} then []
    else
      var m := Least(s);
      [m] + Sorted(s - {m})
  }

  lemma {:induction false} SortedUnique(a: seq<string>, b: seq<string>)
    requires InOrder(a) && InOrder(b)
    requires forall x :: x in a <==> x in b
    ensures a == b
  {
    assert |a| > 0 ==> a[0] in a;
    assert |b| > 0 ==> b[0] in b;
    if a != [] {
      FirstIsLeast(a, b[0]);
      FirstIsLeast(b, a[0]);
      LessStrict(a[0], b[0]);
      forall x ensures x in a[1..] <==> x in b[1..] {
        TailMembers(a, x);
        TailMembers(b, x);
      }
      SortedUnique(a[1..], b[1..]);
    }
  }

  lemma FirstIsLeast(s: seq<string>, x: string)
    requires InOrder(s) && x in s
    ensures x == s[0] || Less(s[0], x)
  {
  }

  lemma TailMembers(s: seq<string>, x: string)
    requires InOrder(s) && s != []
    ensures x in s[1..] <==> x in s && x != s[0]
  {
    LessStrict(s[0], s[0]);
    if x in s[1..] {
      var i :| 0 <= i < |s| - 1 && s[1..][i] == x;
      assert Less(s[0], s[i + 1]);
      LessStrict(s[0], s[i + 1]);
    }
  }

  function Members(s: seq<string>): (r: set<string>)
    ensures forall x :: x in r <==> x in s
  {
    set x | x in s
  }

  /** Sorting the members of a sorted list gives the list back. */
  lemma SortedAgain(s: seq<string>)
    requires InOrder(s)
    ensures Sorted(Members(s)) == s
  {
    SortedUnique(Sorted(Members(s)), s);
  }

  // ----- Sorting in code ------------------------------------------------------------------

  /** Puts a new string into a sorted list at its place. */
  method Insert(x: string, s: seq<string>) returns (r: seq<string>)
    requires InOrder(s) && x !in s
    ensures InOrder(r) && forall y :: y in r <==> y in s || y == x
  {
    var i := 0;
    while i < |s| && Less(s[i], x)
      invariant 0 <= i <= |s|
      invariant forall k :: 0 <= k < i ==> Less(s[k], x)
    {
      i := i + 1;
    }
    forall k | i <= k < |s| ensures Less(x, s[k]) {
      LessStrict(x, s[i]);
      if k > i {
        LessTransitive(x, s[i], s[k]);
      }
    }
    r := s[..i] + [x] + s[i..];
  }

  /** `sorted(set(xs))`. */
  method SortDistinct(xs: seq<string>) returns (r: seq<string>)
    ensures r == Sorted(Members(xs))
  {
    r := [];
    for i := 0 to |xs|
      invariant InOrder(r) && forall y :: y in r <==> y in xs[..i]
    {
      assert xs[..i + 1] == xs[..i] + [xs[i]];
      if xs[i] !in r {
        r := Insert(xs[i], r);
      }
    }
    assert xs[..|xs|] == xs;
    SortedUnique(r, Sorted(Members(xs)));
  }
}
