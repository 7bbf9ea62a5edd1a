/** What the request digest of a batch is taken of (app/api.py, `add_objects`): the items sorted
    by their canonical text and printed. Two batches print the same exactly when they
    are the same items in any order. */
module BatchTexts {
  import opened CanonicalJson
  import JsonInjective
  import Strings

  /** `sorted(..., key=dumps)`, one item at a time. */
  ghost function InsertByText(x: Value, items: seq<Value>): seq<Value> {
    if items == [] || !Strings.Less(Dump(items[0]), Dump(x)) then [x] + items
    else [items[0]] + InsertByText(x, items[1..])
  }

  ghost function SortByText(items: seq<Value>): seq<Value> {
    if items == [] then [] else InsertByText(items[|items| - 1], SortByText(items[..|items| - 1]))
  }

  ghost predicate ByText(items: seq<Value>) {
    forall i, j :: 0 <= i < j < |items| ==> !Strings.Less(Dump(items[j]), Dump(items[i]))
  }

  lemma NotLessTransitive(a: string, b: string, c: string)
    requires !Strings.Less(b, a) && !Strings.Less(c, b)
    ensures !Strings.Less(c, a)
  {
    Strings.LessStrict(a, b);
    Strings.LessStrict(b, c);
    if a != b && b != c {
      Strings.LessTransitive(a, b, c);
      Strings.LessStrict(a, c);
    }
  }

  lemma {:induction false} InsertSorts(x: Value, items: seq<Value>)
    requires ByText(items)
    ensures ByText(InsertByText(x, items)) && multiset(InsertByText(x, items)) == multiset{x} + multiset(items)
    ensures |InsertByText(x, items)| > 0
        && (InsertByText(x, items)[0] == x || (items != [] && InsertByText(x, items)[0] == items[0]))
  {
    hide Dump, Strings.Less;
    if items != [] {
      assert items == [items[0]] + items[1..];
      if Strings.Less(Dump(items[0]), Dump(x)) {
        InsertSorts(x, items[1..]);
        var rest := InsertByText(x, items[1..]);
        Strings.LessStrict(Dump(items[0]), Dump(x));
        forall j | 0 <= j < |rest| ensures !Strings.Less(Dump(rest[j]), Dump(items[0])) {
          if j > 0 {
            NotLessTransitive(Dump(items[0]), Dump(rest[0]), Dump(rest[j]));
          }
        }
      } else {
        forall j | 0 <= j < |items| ensures !Strings.Less(Dump(items[j]), Dump(x)) {
          if j > 0 {
            NotLessTransitive(Dump(x), Dump(items[0]), Dump(items[j]));
          }
        }
      }
    }
  }

  lemma {:induction false} SortSorts(items: seq<Value>)
    ensures ByText(SortByText(items)) && multiset(SortByText(items)) == multiset(items)
  {
    hide Dump, InsertByText;
    if items != [] {
      var n := |items| - 1;
      assert items == items[..n] + [items[n]];
      SortSorts(items[..n]);
      InsertSorts(items[n], SortByText(items[..n]));
    }
  }

  /** Items in the order of their texts are determined by which items they are. */
  lemma {:induction false} OneOrder(a: seq<Value>, b: seq<Value>)
    requires ByText(a) && ByText(b) && multiset(a) == multiset(b)
    ensures a == b
  {
    hide Dump, Strings.Less;
    assert |multiset(a)| == |a| && |multiset(b)| == |b|;
    if a != [] {
      assert a[0] in multiset(b) && b[0] in multiset(a);
      FirstIsFirst(a, b[0]);
      FirstIsFirst(b, a[0]);
      Strings.LessStrict(Dump(a[0]), Dump(b[0]));
      JsonInjective.DumpsAreInjective(a[0], b[0]);
      assert a == [a[0]] + a[1..] && b == [b[0]] + b[1..];
      assert multiset(a[1..]) == multiset(a) - multiset{a[0]};
      assert multiset(b[1..]) == multiset(b) - multiset{b[0]};
      OneOrder(a[1..], b[1..]);
    }
  }

  lemma FirstIsFirst(s: seq<Value>, x: Value)
    requires ByText(s) && x in s
    ensures !Strings.Less(Dump(x), Dump(s[0]))
  {
    var i :| 0 <= i < |s| && s[i] == x;
    Strings.LessStrict(Dump(x), Dump(x));
  }

  /** Two batches print alike exactly when they hold the same items, each as often. */
  lemma BatchesPrintAlike(a: seq<Value>, b: seq<Value>)
    ensures Dump(Arr(SortByText(a))) == Dump(Arr(SortByText(b))) <==> multiset(a) == multiset(b)
  {
    hide Dump, SortByText;
    SortSorts(a);
    SortSorts(b);
    JsonInjective.DumpsAreInjective(Arr(SortByText(a)), Arr(SortByText(b)));
    if multiset(a) == multiset(b) {
      OneOrder(SortByText(a), SortByText(b));
    }
  }
}
