/** Canonical JSON is injective: printed values delimit themselves, so equal texts are equal values. */
module JsonInjective {
  import Strings
  import opened CanonicalJson

  /** What may follow a printed value: nothing, or a character that no number goes on with. */
  ghost predicate Stops(x: string) {
    x == "" || x[0] in {',', ':', ']', '}'}
  }

  lemma CancelFront(a: string, x: string, y: string)
    ensures a + x == a + y <==> x == y
  {
    if a + x == a + y {
      assert (a + x)[|a|..] == x && (a + y)[|a|..] == y;
    }
  }

  // ----- Strings ------------------------------------------------------------------------------

  lemma EscapeStarts(c: char)
    ensures |EscapeChar(c)| > 0 && EscapeChar(c)[0] != '"'
  {
  }

  /** The escapes of characters are a prefix code. */
  lemma EscapeDelimits(c: char, d: char, x: string, y: string)
    requires EscapeChar(c) + x == EscapeChar(d) + y
    ensures c == d && x == y
  {
    var s, t := EscapeChar(c) + x, EscapeChar(d) + y;
    assert s[0] == EscapeChar(c)[0] && t[0] == EscapeChar(d)[0];
    if s[0] == '\\' {
      assert s[1] == EscapeChar(c)[1] && t[1] == EscapeChar(d)[1];
      if s[1] == 'u' {
        assert s[4] == EscapeChar(c)[4] && t[4] == EscapeChar(d)[4];
        assert s[5] == EscapeChar(c)[5] && t[5] == EscapeChar(d)[5];
        assert c as int / 16 == d as int / 16 && c as int % 16 == d as int % 16;
      }
    }
    CancelFront(EscapeChar(c), x, y);
  }

  lemma EscapedIsNoQuote(s: string, x: string, y: string)
    requires s != ""
    ensures EscapeAll(s) + "\"" + x != "\"" + y
  {
    hide EscapeChar;
    EscapeStarts(s[0]);
    assert (EscapeAll(s) + "\"" + x)[0] == EscapeChar(s[0])[0];
  }

  lemma {:induction false} EscapedDelimits(s: string, t: string, x: string, y: string)
    requires EscapeAll(s) + "\"" + x == EscapeAll(t) + "\"" + y
    ensures s == t && x == y
    decreases |s|
  {
    hide EscapeChar;
    assert s == "" ==> EscapeAll(s) + "\"" + x == "\"" + x;
    assert t == "" ==> EscapeAll(t) + "\"" + y == "\"" + y;
    if s == "" && t == "" {
      CancelFront("\"", x, y);
    } else if s == "" {
      EscapedIsNoQuote(t, y, x);
    } else if t == "" {
      EscapedIsNoQuote(s, x, y);
    } else {
      var p, q := EscapeAll(s[1..]) + "\"" + x, EscapeAll(t[1..]) + "\"" + y;
      assert EscapeAll(s) + "\"" + x == EscapeChar(s[0]) + p;
      assert EscapeAll(t) + "\"" + y == EscapeChar(t[0]) + q;
      EscapeDelimits(s[0], t[0], p, q);
      EscapedDelimits(s[1..], t[1..], x, y);
      assert s == [s[0]] + s[1..] && t == [t[0]] + t[1..];
    }
  }

  lemma StringDelimits(s: string, t: string, x: string, y: string)
    requires EscapeString(s) + x == EscapeString(t) + y
    ensures s == t && x == y
  {
    assert EscapeString(s) + x == "\"" + (EscapeAll(s) + "\"" + x);
    assert EscapeString(t) + y == "\"" + (EscapeAll(t) + "\"" + y);
    CancelFront("\"", EscapeAll(s) + "\"" + x, EscapeAll(t) + "\"" + y);
    EscapedDelimits(s, t, x, y);
  }

  // ----- Numbers --------------------------------------------------------------------------------

  ghost predicate IsDigit(c: char) {
    '0' <= c <= '9'
  }

  ghost predicate AllDigits(s: string) {
    forall i :: 0 <= i < |s| ==> IsDigit(s[i])
  }

  function ValueOf(s: string): int {
    if s == "" then 0 else 10 * ValueOf(s[..|s| - 1]) + (s[|s| - 1] as int - 48)
  }

  lemma {:induction false} DigitsMean(n: nat)
    ensures AllDigits(Digits(n)) && ValueOf(Digits(n)) == n
  {
    var last := ['0' + (n % 10) as char];
    if n >= 10 {
      DigitsMean(n / 10);
      assert (Digits(n / 10) + last)[..|Digits(n / 10)|] == Digits(n / 10);
    } else {
      assert last[..0] == "";
    }
  }

  lemma ShorterDiffers(a: string, b: string, x: string, y: string)
    requires |a| < |b| && AllDigits(b) && Stops(x)
    ensures a + x != b + y
  {
    assert (b + y)[|a|] == b[|a|];
    if x != "" {
      assert (a + x)[|a|] == x[0];
    }
  }

  lemma DigitsDelimit(a: string, b: string, x: string, y: string)
    requires AllDigits(a) && AllDigits(b) && Stops(x) && Stops(y) && a + x == b + y
    ensures a == b && x == y
  {
    if |a| < |b| {
      ShorterDiffers(a, b, x, y);
    } else if |b| < |a| {
      ShorterDiffers(b, a, y, x);
    } else {
      assert (a + x)[..|a|] == a && (b + y)[..|b|] == b;
      CancelFront(a, x, y);
    }
  }

  lemma NaturalDelimits(i: nat, j: nat, x: string, y: string)
    requires Digits(i) + x == Digits(j) + y && Stops(x) && Stops(y)
    ensures i == j && x == y
  {
    DigitsMean(i);
    DigitsMean(j);
    DigitsDelimit(Digits(i), Digits(j), x, y);
  }

  lemma SignTells(i: int, x: string)
    ensures Decimal(i) != "" && ((Decimal(i) + x)[0] == '-' <==> i < 0)
  {
    hide Digits;
    DigitsMean(if i < 0 then -i else i);
    assert (Decimal(i) + x)[0] == Decimal(i)[0];
  }

  lemma NumberDelimits(i: int, j: int, x: string, y: string)
    requires Decimal(i) + x == Decimal(j) + y && Stops(x) && Stops(y)
    ensures i == j && x == y
  {
    hide Digits, Stops;
    SignTells(i, x);
    SignTells(j, y);
    if i < 0 {
      assert Decimal(i) + x == "-" + (Digits(-i) + x) && Decimal(j) + y == "-" + (Digits(-j) + y);
      CancelFront("-", Digits(-i) + x, Digits(-j) + y);
      NaturalDelimits(-i, -j, x, y);
    } else {
      NaturalDelimits(i, j, x, y);
    }
  }

  lemma NumberStarts(i: int)
    ensures |Decimal(i)| > 0 && (Decimal(i)[0] == '-' || IsDigit(Decimal(i)[0]))
  {
    DigitsMean(if i < 0 then -i else i);
  }

  // ----- Values -----------------------------------------------------------------------------------

  /** The first character tells which kind of value is printed. */
  ghost function Start(v: Value): string {
    match v
    case Null => "n"
    case Bool(b) => if b then "t" else "f"
    case Int(_) => "-0123456789"
    case Str(_) => "\""
    case Arr(_) => "["
    case Obj(_) => "{"
  }

  lemma DumpStarts(v: Value)
    ensures |Dump(v)| > 0 && Dump(v)[0] in Start(v) && Dump(v)[0] !in {']', '}', ','}
  {
    hide DumpItems, DumpFields;
    if v.Int? {
      NumberStarts(v.number);
    }
  }

  lemma SameKind(v: Value, w: Value, x: string, y: string)
    requires Dump(v) + x == Dump(w) + y
    ensures v.Null? == w.Null? && v.Bool? == w.Bool? && v.Int? == w.Int?
    ensures v.Str? == w.Str? && v.Arr? == w.Arr? && v.Obj? == w.Obj?
    ensures v.Bool? ==> v == w
  {
    hide Dump;
    DumpStarts(v);
    DumpStarts(w);
    assert (Dump(v) + x)[0] == Dump(v)[0] && (Dump(w) + y)[0] == Dump(w)[0];
  }

  /** A printed value delimits itself: whatever stops it, the value and the rest can be told apart. */
  lemma {:induction false} DumpDelimits(v: Value, w: Value, x: string, y: string)
    requires Dump(v) + x == Dump(w) + y && Stops(x) && Stops(y)
    ensures v == w && x == y
    decreases v, 3
  {
    SameKind(v, w, x, y);
    match v
    case Null => CancelFront("null", x, y);
    case Bool(b) => CancelFront(Dump(v), x, y);
    case Int(i) => NumberDelimits(i, w.number, x, y);
    case Str(s) => StringDelimits(s, w.text, x, y);
    case Arr(items) => ArrayDelimits(v, w, x, y);
    case Obj(fields) => ObjectDelimits(v, w, x, y);
  }

  lemma {:induction false} ArrayDelimits(v: Value, w: Value, x: string, y: string)
    requires v.Arr? && w.Arr? && Dump(v) + x == Dump(w) + y
    ensures v == w && x == y
    decreases v, 2
  {
    hide DumpItems;
    var p, q := DumpItems(v.items) + "]" + x, DumpItems(w.items) + "]" + y;
    assert Dump(v) + x == "[" + p && Dump(w) + y == "[" + q;
    CancelFront("[", p, q);
    ItemsDelimit(v.items, w.items, x, y);
  }

  /** What comes after one item: the end of the array, or a comma and the other items. */
  ghost function AfterItem(items: seq<Value>, x: string): string
    requires items != []
  {
    if |items| == 1 then "]" + x else "," + (DumpItems(items[1..]) + "]" + x)
  }

  lemma ItemsSplit(items: seq<Value>, x: string)
    requires items != []
    ensures DumpItems(items) + "]" + x == Dump(items[0]) + AfterItem(items, x)
    ensures Stops(AfterItem(items, x))
  {
    hide Dump;
  }

  lemma NoItems(items: seq<Value>, x: string, y: string)
    requires items != []
    ensures DumpItems(items) + "]" + x != "]" + y
  {
    ItemsSplit(items, x);
    DumpStarts(items[0]);
    assert (Dump(items[0]) + AfterItem(items, x))[0] == Dump(items[0])[0];
  }

  lemma {:induction false} ItemsDelimit(a: seq<Value>, b: seq<Value>, x: string, y: string)
    requires DumpItems(a) + "]" + x == DumpItems(b) + "]" + y
    ensures a == b && x == y
    decreases a, 1
  {
    hide Dump;
    if a == [] {
      assert DumpItems(a) + "]" + x == "]" + x;
      if b != [] {
        NoItems(b, y, x);
      } else {
        assert DumpItems(b) + "]" + y == "]" + y;
        CancelFront("]", x, y);
      }
    } else if b == [] {
      assert DumpItems(b) + "]" + y == "]" + y;
      NoItems(a, x, y);
    } else {
      ItemsSplit(a, x);
      ItemsSplit(b, y);
      DumpDelimits(a[0], b[0], AfterItem(a, x), AfterItem(b, y));
      RestDelimits(a, b, x, y);
      assert a == [a[0]] + a[1..] && b == [b[0]] + b[1..];
    }
  }

  lemma {:induction false} RestDelimits(a: seq<Value>, b: seq<Value>, x: string, y: string)
    requires a != [] && b != [] && AfterItem(a, x) == AfterItem(b, y)
    ensures a[1..] == b[1..] && x == y
    decreases a, 0
  {
    hide DumpItems;
    assert |a| == 1 <==> |b| == 1 by {
      assert AfterItem(a, x)[0] == (if |a| == 1 then ']' else ',');
      assert AfterItem(b, y)[0] == (if |b| == 1 then ']' else ',');
    }
    if |a| == 1 {
      CancelFront("]", x, y);
    } else {
      CancelFront(",", DumpItems(a[1..]) + "]" + x, DumpItems(b[1..]) + "]" + y);
      ItemsDelimit(a[1..], b[1..], x, y);
    }
  }

  // ----- Objects ------------------------------------------------------------------------------------

  lemma {:induction false} ObjectDelimits(v: Value, w: Value, x: string, y: string)
    requires v.Obj? && w.Obj? && Dump(v) + x == Dump(w) + y
    ensures v == w && x == y
    decreases v, 2
  {
    hide DumpFields;
    var ks, ls := Strings.Sorted(v.fields.Keys), Strings.Sorted(w.fields.Keys);
    var p, q := DumpFields(v, ks) + "}" + x, DumpFields(w, ls) + "}" + y;
    assert Dump(v) + x == "{" + p && Dump(w) + y == "{" + q;
    CancelFront("{", p, q);
    FieldsDelimit(v, w, ks, ls, x, y);
    SameFields(v.fields, w.fields, ks);
  }

  lemma SameFields(a: map<string, Value>, b: map<string, Value>, keys: seq<string>)
    requires keys == Strings.Sorted(a.Keys) == Strings.Sorted(b.Keys)
    requires forall k :: k in keys ==> k in a && k in b && a[k] == b[k]
    ensures a == b
  {
    assert forall k :: k in a <==> k in keys;
    assert forall k :: k in b <==> k in keys;
  }

  ghost function AfterField(v: Value, keys: seq<string>, x: string): string
    requires HasFields(v, keys) && keys != []
  {
    if |keys| == 1 then "}" + x else "," + (DumpFields(v, keys[1..]) + "}" + x)
  }

  lemma FieldsSplit(v: Value, keys: seq<string>, x: string)
    requires HasFields(v, keys) && keys != []
    ensures DumpFields(v, keys) + "}" + x
              == EscapeString(keys[0]) + (":" + (Dump(v.fields[keys[0]]) + AfterField(v, keys, x)))
    ensures Stops(AfterField(v, keys, x))
  {
    hide Dump, EscapeString, Stops;
    var key, value := EscapeString(keys[0]), Dump(v.fields[keys[0]]);
    if |keys| == 1 {
      LastFieldGroups(key, value, x);
    } else {
      FieldGroups(key, value, DumpFields(v, keys[1..]), x);
    }
    AfterFieldStops(v, keys, x);
  }

  lemma LastFieldGroups(key: string, value: string, x: string)
    ensures key + ":" + value + "}" + x == key + (":" + (value + ("}" + x)))
  {
  }

  lemma FieldGroups(key: string, value: string, rest: string, x: string)
    ensures key + ":" + value + "," + rest + "}" + x == key + (":" + (value + ("," + (rest + "}" + x))))
  {
    var field := key + ":" + value;
    assert field + "," + rest + "}" + x == field + ("," + (rest + "}" + x));
    Regroup(key, value, "," + (rest + "}" + x));
  }

  lemma AfterFieldStops(v: Value, keys: seq<string>, x: string)
    requires HasFields(v, keys) && keys != []
    ensures Stops(AfterField(v, keys, x))
  {
    hide DumpFields;
  }

  lemma Regroup(key: string, value: string, rest: string)
    ensures key + ":" + value + rest == key + (":" + (value + rest))
  {
  }

  lemma NoFields(v: Value, keys: seq<string>, x: string, y: string)
    requires HasFields(v, keys) && keys != []
    ensures DumpFields(v, keys) + "}" + x != "}" + y
  {
    hide DumpFields, Dump;
    FieldsSplit(v, keys, x);
    var rest := ":" + (Dump(v.fields[keys[0]]) + AfterField(v, keys, x));
    assert (EscapeString(keys[0]) + rest)[0] == '"';
  }

  lemma {:induction false} FieldsDelimit(v: Value, w: Value, ks: seq<string>, ls: seq<string>, x: string, y: string)
    requires HasFields(v, ks) && HasFields(w, ls) && DumpFields(v, ks) + "}" + x == DumpFields(w, ls) + "}" + y
    ensures ks == ls && (forall k :: k in ks ==> v.fields[k] == w.fields[k]) && x == y
    decreases v, 1, |ks|
  {
    hide Dump, EscapeString;
    if ks == [] {
      assert DumpFields(v, ks) + "}" + x == "}" + x;
      if ls != [] {
        NoFields(w, ls, y, x);
      } else {
        assert DumpFields(w, ls) + "}" + y == "}" + y;
        CancelFront("}", x, y);
      }
    } else if ls == [] {
      assert DumpFields(w, ls) + "}" + y == "}" + y;
      NoFields(v, ks, x, y);
    } else {
      FieldDelimits(v, w, ks, ls, x, y);
      OtherFieldsDelimit(v, w, ks, ls, x, y);
      assert ks == [ks[0]] + ks[1..] && ls == [ls[0]] + ls[1..];
    }
  }

  lemma {:induction false} FieldDelimits(v: Value, w: Value, ks: seq<string>, ls: seq<string>, x: string, y: string)
    requires HasFields(v, ks) && HasFields(w, ls) && ks != [] && ls != []
    requires DumpFields(v, ks) + "}" + x == DumpFields(w, ls) + "}" + y
    ensures ks[0] == ls[0] && v.fields[ks[0]] == w.fields[ls[0]] && AfterField(v, ks, x) == AfterField(w, ls, y)
    decreases v, 1, |ks|, 0
  {
    hide Dump, EscapeString, DumpFields, AfterField;
    FieldsSplit(v, ks, x);
    FieldsSplit(w, ls, y);
    var p, q := Dump(v.fields[ks[0]]) + AfterField(v, ks, x), Dump(w.fields[ls[0]]) + AfterField(w, ls, y);
    StringDelimits(ks[0], ls[0], ":" + p, ":" + q);
    CancelFront(":", p, q);
    DumpDelimits(v.fields[ks[0]], w.fields[ls[0]], AfterField(v, ks, x), AfterField(w, ls, y));
  }

  lemma {:induction false} OtherFieldsDelimit(v: Value, w: Value, ks: seq<string>, ls: seq<string>, x: string,
          y: string)
    requires HasFields(v, ks) && HasFields(w, ls) && ks != [] && ls != []
    requires AfterField(v, ks, x) == AfterField(w, ls, y)
    ensures ks[1..] == ls[1..] && (forall k :: k in ks[1..] ==> v.fields[k] == w.fields[k]) && x == y
    decreases v, 1, |ks|, 0
  {
    hide DumpFields;
    assert |ks| == 1 <==> |ls| == 1 by {
      assert AfterField(v, ks, x)[0] == (if |ks| == 1 then '}' else ',');
      assert AfterField(w, ls, y)[0] == (if |ls| == 1 then '}' else ',');
    }
    if |ks| == 1 {
      CancelFront("}", x, y);
    } else {
      CancelFront(",", DumpFields(v, ks[1..]) + "}" + x, DumpFields(w, ls[1..]) + "}" + y);
      FieldsDelimit(v, w, ks[1..], ls[1..], x, y);
    }
  }

  /** Two values print the same exactly when they are equal. */
  lemma DumpsAreInjective(v: Value, w: Value)
    ensures Dump(v) == Dump(w) <==> v == w
  {
    if Dump(v) == Dump(w) {
      assert Dump(v) + "" == Dump(w) + "";
      DumpDelimits(v, w, "", "");
    }
  }
}
