/** What a JSON text says, after the grammar of RFC 8259: literals, numbers, strings with their escapes,
    arrays and objects. The printer's texts say the values that were printed. */
module JsonMeaning {
  import opened Basics
  import opened CanonicalJson
  import opened JsonInjective
  import Strings

  // ----- Strings (section 7) -----------------------------------------------------------------

  function HexOf(c: char): Option<nat> {
    if '0' <= c <= '9' then Some(c as nat - 48)
    else if 'a' <= c <= 'f' then Some(c as nat - 87)
    else if 'A' <= c <= 'F' then Some(c as nat - 55)
    else None
  }

  /** The character with this code in four hexadecimal digits. */
  function FromHex(s: string): Option<char>
    requires |s| == 4
  {
    match (HexOf(s[0]), HexOf(s[1]), HexOf(s[2]), HexOf(s[3]))
    case (Some(a), Some(b), Some(c), Some(d)) =>
      var code := 4096 * a + 256 * b + 16 * c + d;
      if code < 0xD800 then Some(code as char) else None
    case _ => None
  }

  /** The character that a backslash and this one stand for. */
  function ShortEscape(c: char): Option<char> {
    match c
    case '"' => Some('"')
    case '\\' => Some('\\')
    case '/' => Some('/')
    case 'b' => Some(8 as char)
    case 'f' => Some(12 as char)
    case 'n' => Some(10 as char)
    case 'r' => Some(13 as char)
    case 't' => Some(9 as char)
    case _ => None
  }

  function Before(c: Option<char>, rest: Option<string>): Option<string> {
    if c.Some? && rest.Some? then Some([c.value] + rest.value) else None
  }

  /** What stands between quotation marks; control characters must be escaped. */
  function Unescaped(s: string): Option<string> {
    if s == "" then Some("")
    else if s[0] == '"' || s[0] < ' ' then None
    else if s[0] != '\\' then Before(Some(s[0]), Unescaped(s[1..]))
    else if |s| >= 6 && s[1] == 'u' then Before(FromHex(s[2..6]), Unescaped(s[6..]))
    else if |s| >= 2 then Before(ShortEscape(s[1]), Unescaped(s[2..]))
    else None
  }

  predicate IsString(s: string, text: string) {
    |s| >= 2 && s[0] == '"' && s[|s| - 1] == '"' && Unescaped(s[1..|s| - 1]) == Some(text)
  }

  // ----- Numbers (section 6), without fraction and exponent ---------------------------------------

  ghost predicate IsNatural(s: string, n: nat) {
    s != "" && AllDigits(s) && (s[0] == '0' ==> |s| == 1) && ValueOf(s) == n
  }

  ghost predicate IsInteger(s: string, i: int) {
    if i < 0 then s != "" && s[0] == '-' && IsNatural(s[1..], -i) else IsNatural(s, i)
  }

  // ----- Values (sections 3 to 5) --------------------------------------------------------------------

  /** The parts with commas between them. */
  function Commas(parts: seq<string>): string {
    if parts == [] then "" else if |parts| == 1 then parts[0] else parts[0] + "," + Commas(parts[1..])
  }

  /** The text says this value. The fields of an object come in any one order of their keys; for the
      canonical form it is that of the code points. */
  ghost predicate Says(s: string, v: Value)
    decreases v, 1
  {
    match v
    case Null => s == "null"
    case Bool(truth) => (truth && s == "true") || (!truth && s == "false")
    case Int(i) => IsInteger(s, i)
    case Str(text) => IsString(s, text)
    case Arr(items) =>
      exists parts: seq<string> :: |parts| == |items| && s == "[" + Commas(parts) + "]"
        && forall i :: 0 <= i < |items| ==> Says(parts[i], items[i])
    case Obj(fields) =>
      exists keys: seq<string>, names: seq<string>, values: seq<string> :: SaysFields(s, v, keys, names, values)
  }

  ghost predicate SaysFields(s: string, v: Value, keys: seq<string>, names: seq<string>, values: seq<string>)
    requires v.Obj?
    decreases v, 0
  {
    && Strings.InOrder(keys) && (forall k :: k in keys <==> k in v.fields)
    && |names| == |keys| && |values| == |keys| && s == "{" + Commas(Pairs(names, values)) + "}"
    && (forall i :: 0 <= i < |keys| ==> IsString(names[i], keys[i]))
    && (forall i :: 0 <= i < |keys| ==> keys[i] in v.fields && Says(values[i], v.fields[keys[i]]))
  }

  function Pairs(names: seq<string>, values: seq<string>): seq<string>
    requires |names| == |values|
  {
    seq(|names|, i requires 0 <= i < |names| => names[i] + ":" + values[i])
  }

  // ----- The printer's texts --------------------------------------------------------------------------

  lemma EscapeReads(c: char, rest: string)
    ensures Unescaped(EscapeChar(c) + rest) == Before(Some(c), Unescaped(rest))
  {
    var e := EscapeChar(c);
    var s := e + rest;
    if |e| == 1 {
      assert s[0] == c && s[1..] == rest;
    } else if |e| == 2 {
      assert s[0] == e[0] && s[1] == e[1] && s[2..] == rest;
    } else {
      assert s[0] == e[0] && s[1] == e[1] && s[2..6] == e[2..] && s[6..] == rest;
      ControlReads(c);
    }
  }

  lemma ControlReads(c: char)
    requires |EscapeChar(c)| == 6
    ensures FromHex(EscapeChar(c)[2..]) == Some(c)
  {
    var code := c as int;
    var h := EscapeChar(c)[2..];
    assert h == ['0', '0', HexDigit(code / 16), HexDigit(code % 16)];
    assert code / 16 < 2;
  }

  lemma {:induction false} EscapedReads(s: string)
    ensures Unescaped(EscapeAll(s)) == Some(s)
  {
    if s != "" {
      hide EscapeChar;
      EscapedReads(s[1..]);
      EscapeReads(s[0], EscapeAll(s[1..]));
      assert s == [s[0]] + s[1..];
    }
  }

  lemma StringReads(text: string)
    ensures IsString(EscapeString(text), text)
  {
    var s := EscapeString(text);
    assert s[1..|s| - 1] == EscapeAll(text);
    EscapedReads(text);
  }

  lemma {:induction false} NoLeadingZero(n: nat)
    ensures Digits(n)[0] == '0' ==> n == 0
  {
    if n >= 10 {
      NoLeadingZero(n / 10);
    }
  }

  lemma IntegerReads(i: int)
    ensures IsInteger(Decimal(i), i)
  {
    var n: nat := if i < 0 then -i else i;
    DigitsMean(n);
    NoLeadingZero(n);
    hide Digits;
    if i < 0 {
      assert Decimal(i)[1..] == Digits(n);
    }
    assert n == 0 ==> |Digits(n)| == 1 by {
      ZeroDigits();
    }
  }

  lemma ZeroDigits()
    ensures |Digits(0)| == 1
  {
  }

  ghost function Texts(items: seq<Value>): seq<string> {
    seq(|items|, i requires 0 <= i < |items| => Dump(items[i]))
  }

  /** Every printed value says the value: in particular truth, names and values are not exchanged. */
  lemma {:induction false} DumpSays(v: Value)
    ensures Says(Dump(v), v)
    decreases v, 1
  {
    match v
    case Null =>
    case Bool(_) =>
    case Int(i) => IntegerReads(i);
    case Str(text) => StringReads(text);
    case Arr(items) =>
      ItemsJoin(items);
      forall i | 0 <= i < |items| ensures Says(Texts(items)[i], items[i]) {
        DumpSays(items[i]);
      }
    case Obj(fields) => ObjectSays(v);
  }

  lemma {:induction false} ItemsJoin(items: seq<Value>)
    ensures DumpItems(items) == Commas(Texts(items))
  {
    hide Dump;
    if |items| > 1 {
      ItemsJoin(items[1..]);
      assert Texts(items)[1..] == Texts(items[1..]);
    }
  }

  function KeyTexts(keys: seq<string>): seq<string> {
    seq(|keys|, i requires 0 <= i < |keys| => EscapeString(keys[i]))
  }

  ghost function ValueTexts(v: Value, keys: seq<string>): seq<string>
    requires HasFields(v, keys)
  {
    seq(|keys|, i requires 0 <= i < |keys| => Dump(v.fields[keys[i]]))
  }

  lemma {:induction false} FieldsJoin(v: Value, keys: seq<string>)
    requires HasFields(v, keys)
    ensures DumpFields(v, keys) == Commas(Pairs(KeyTexts(keys), ValueTexts(v, keys)))
  {
    hide Dump, EscapeString;
    var pairs := Pairs(KeyTexts(keys), ValueTexts(v, keys));
    if keys != [] {
      assert pairs[0] == DumpField(v, keys[0]);
    }
    if |keys| > 1 {
      FieldsJoin(v, keys[1..]);
      assert pairs[1..] == Pairs(KeyTexts(keys[1..]), ValueTexts(v, keys[1..]));
    }
  }

  lemma {:induction false} ObjectSays(v: Value)
    requires v.Obj?
    ensures Says(Dump(v), v)
    decreases v, 0
  {
    var keys := Strings.Sorted(v.fields.Keys);
    var names, values := KeyTexts(keys), ValueTexts(v, keys);
    FieldsJoin(v, keys);
    forall i | 0 <= i < |keys|
      ensures IsString(names[i], keys[i])
      ensures keys[i] in v.fields && Says(values[i], v.fields[keys[i]])
    {
      assert keys[i] in keys;
      StringReads(keys[i]);
      DumpSays(v.fields[keys[i]]);
    }
    hide EscapeString, IsString, DumpFields, Commas, Pairs, KeyTexts, ValueTexts;
    assert Dump(v) == "{" + DumpFields(v, keys) + "}";
    assert SaysFields(Dump(v), v, keys, names, values);
  }
}
