/** The canonical JSON printer (app/canonical.py): what it prints, as a function of the value. */
module CanonicalJson {
  import Strings

  /** JSON values; tuples are arrays, and the order of an object's fields does not count. */
  datatype Value =
    | Null | Bool(truth: bool) | Int(number: int) | Str(text: string)
    | Arr(items: seq<Value>) | Obj(fields: map<string, Value>)

  // ----- Strings -------------------------------------------------------------------------

  function HexDigit(d: nat): char
    requires d < 16
  {
    if d < 10 then '0' + d as char else 'a' + (d - 10) as char
  }

  function EscapeChar(c: char): string {
    if c == '"' then "\\\""
    else if c == '\\' then "\\\\"
    else if c == 8 as char then "\\b"
    else if c == 12 as char then "\\f"
    else if c == '\n' then "\\n"
    else if c == '\r' then "\\r"
    else if c == '\t' then "\\t"
    else if c < ' ' then "\\u00" + [HexDigit(c as int / 16), HexDigit(c as int % 16)]
    else [c]
  }

  function EscapeAll(s: string): string {
    if s == "" then "" else EscapeChar(s[0]) + EscapeAll(s[1..])
  }

  /** `_escape_string`. */
  function EscapeString(s: string): string {
    "\"" + EscapeAll(s) + "\""
  }

  // ----- Numbers ---------------------------------------------------------------------------

  function Digits(n: nat): (s: string)
    ensures |s| > 0
  {
    if n < 10 then ['0' + n as char] else Digits(n / 10) + ['0' + (n % 10) as char]
  }

  /** Python's `str` on an integer. */
  function Decimal(i: int): string {
    if i < 0 then "-" + Digits(-i) else Digits(i)
  }

  // ----- Values ------------------------------------------------------------------------------

  /** `_dump`. */
  ghost function Dump(v: Value): string
    decreases v, 2
  {
    match v
    case Null => "null"
    case Bool(truth) => if truth then "true" else "false"
    case Int(i) => Decimal(i)
    case Str(s) => EscapeString(s)
    case Arr(items) => "[" + DumpItems(items) + "]"
    case Obj(fields) => "{" + DumpFields(v, Strings.Sorted(fields.Keys)) + "}"
  }

  ghost function DumpItems(items: seq<Value>): string
    decreases items
  {
    if items == [] then ""
    else if |items| == 1 then Dump(items[0])
    else Dump(items[0]) + "," + DumpItems(items[1..])
  }

  ghost predicate HasFields(v: Value, keys: seq<string>) {
    v.Obj? && forall k :: k in keys ==> k in v.fields
  }

  ghost function DumpField(v: Value, key: string): string
    requires v.Obj? && key in v.fields
    decreases v, 0
  {
    EscapeString(key) + ":" + Dump(v.fields[key])
  }

  /** Some fields of an object, in the given order. */
  ghost function DumpFields(v: Value, keys: seq<string>): string
    requires HasFields(v, keys)
    decreases v, 1, |keys|
  {
    if keys == [] then ""
    else if |keys| == 1 then DumpField(v, keys[0])
    else DumpField(v, keys[0]) + "," + DumpFields(v, keys[1..])
  }
}
