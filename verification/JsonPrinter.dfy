/** The printer at work: `_dump` appends its pieces to a shared output list. */
module JsonPrinters {
  import Strings
  import opened CanonicalJson

  /** `"".join(pieces)`. */
  function Joined(pieces: seq<string>): string {
    if pieces == [] then "" else Joined(pieces[..|pieces| - 1]) + pieces[|pieces| - 1]
  }

  class Output {
    var pieces: seq<string>

    constructor ()
      ensures pieces == []
    {
      pieces := [];
    }

    method Append(piece: string)
      modifies this
      ensures pieces == old(pieces) + [piece] && Joined(pieces) == Joined(old(pieces)) + piece
    {
      assert (pieces + [piece])[..|pieces|] == pieces;
      pieces := pieces + [piece];
    }
  }

  /** The loop of `_escape_string` over the characters. */
  method EscapeText(s: string) returns (text: string)
    ensures text == EscapeString(s)
  {
    hide EscapeChar;
    var out := "\"";
    assert s[0..] == s;
    for i := 0 to |s|
      invariant "\"" + EscapeAll(s) == out + EscapeAll(s[i..])
    {
      assert s[i..][1..] == s[i + 1..];
      assert out + (EscapeChar(s[i]) + EscapeAll(s[i + 1..])) == (out + EscapeChar(s[i])) + EscapeAll(s[i + 1..]);
      out := out + EscapeChar(s[i]);
    }
    assert s[|s|..] == "" && out + "" == out;
    text := out + "\"";
  }

  /** `sorted(obj.keys())`. */
  method SortKeys(keys: set<string>) returns (sorted: seq<string>)
    ensures sorted == Strings.Sorted(keys)
  {
    sorted := [];
    var todo := keys;
    while todo != {}
      invariant todo <= keys && Strings.InOrder(sorted)
      invariant forall k :: k in sorted <==> k in keys && k !in todo
    {
      var k :| k in todo;
      sorted := Strings.Insert(k, sorted);
      todo := todo - {k};
    }
    Strings.SortedUnique(sorted, Strings.Sorted(keys));
  }

  lemma Associate(a: string, x: string, y: string)
    ensures a + (x + y) == (a + x) + y
  {
  }

  /** `_dump`. */
  method Print(v: Value, out: Output)
    modifies out
    ensures Joined(out.pieces) == Joined(old(out.pieces)) + Dump(v)
    decreases v, 2
  {
    ghost var start := Joined(out.pieces);
    match v
    case Null => out.Append("null");
    case Bool(truth) => out.Append(if truth then "true" else "false");
    case Int(i) => out.Append(Decimal(i));
    case Str(s) =>
      var text := EscapeText(s);
      out.Append(text);
    case Arr(items) =>
      out.Append("[");
      PrintItems(v, out);
      out.Append("]");
      Associate(start, "[" + DumpItems(items), "]");
      Associate(start, "[", DumpItems(items));
    case Obj(fields) =>
      var keys := SortKeys(fields.Keys);
      out.Append("{");
      PrintFields(v, keys, out);
      out.Append("}");
      Associate(start, "{" + DumpFields(v, keys), "}");
      Associate(start, "{", DumpFields(v, keys));
  }

  /** What the loop over the items has yet to print, with the comma before it. */
  ghost function ItemsLeft(items: seq<Value>, i: nat): string
    requires i <= |items|
  {
    if i == |items| then "" else if i == 0 then DumpItems(items) else "," + DumpItems(items[i..])
  }

  lemma ItemsNext(items: seq<Value>, i: nat)
    requires i < |items|
    ensures ItemsLeft(items, i) == (if i == 0 then "" else ",") + (Dump(items[i]) + ItemsLeft(items, i + 1))
  {
    hide Dump;
    assert items[0..] == items && items[i..][1..] == items[i + 1..];
  }

  /** The loop of `_dump` over the items of a list. */
  method PrintItems(v: Value, out: Output)
    requires v.Arr?
    modifies out
    ensures Joined(out.pieces) == Joined(old(out.pieces)) + DumpItems(v.items)
    decreases v, 1
  {
    hide Dump, DumpItems, ItemsLeft;
    ghost var start := Joined(out.pieces);
    var items := v.items;
    NothingLeft(items);
    for i := 0 to |items|
      invariant Joined(out.pieces) + ItemsLeft(items, i) == start + DumpItems(items)
    {
      ItemsNext(items, i);
      ghost var before := Joined(out.pieces);
      if i > 0 {
        out.Append(",");
      }
      Print(items[i], out);
      Regroup(before, if i == 0 then "" else ",", Dump(items[i]), ItemsLeft(items, i + 1));
    }
  }

  lemma Regroup(a: string, b: string, c: string, d: string)
    ensures a + (b + (c + d)) == ((a + b) + c) + d
    ensures a + "" == a
  {
  }

  lemma NothingLeft(items: seq<Value>)
    ensures ItemsLeft(items, 0) == DumpItems(items) && ItemsLeft(items, |items|) == ""
    ensures forall s: string :: s + "" == s
  {
  }

  ghost function FieldsLeft(v: Value, keys: seq<string>, i: nat): string
    requires HasFields(v, keys) && i <= |keys|
  {
    if i == |keys| then "" else if i == 0 then DumpFields(v, keys) else "," + DumpFields(v, keys[i..])
  }

  lemma FieldsNext(v: Value, keys: seq<string>, i: nat)
    requires HasFields(v, keys) && i < |keys|
    ensures keys[i] in v.fields
    ensures FieldsLeft(v, keys, i) ==
            (if i == 0 then "" else ",")
                + (EscapeString(keys[i]) + (":" + (Dump(v.fields[keys[i]]) + FieldsLeft(v, keys, i + 1))))
  {
    hide Dump, EscapeString;
    assert keys[0..] == keys && keys[i..][1..] == keys[i + 1..];
    var comma, key, value, rest :=
        if i == 0 then "" else ",", EscapeString(keys[i]), Dump(v.fields[keys[i]]), FieldsLeft(v, keys, i + 1);
    assert DumpFields(v, keys[i..]) == DumpField(v, keys[i]) + rest;
    assert DumpField(v, keys[i]) == key + ":" + value;
    assert key + ":" + value + rest == key + (":" + (value + rest));
  }

  lemma NoFieldsLeft(v: Value, keys: seq<string>)
    requires HasFields(v, keys)
    ensures FieldsLeft(v, keys, 0) == DumpFields(v, keys) && FieldsLeft(v, keys, |keys|) == ""
    ensures forall s: string :: s + "" == s
  {
  }

  /** The loop of `_dump` over the sorted keys of a dictionary. */
  method PrintFields(v: Value, keys: seq<string>, out: Output)
    requires HasFields(v, keys)
    modifies out
    ensures Joined(out.pieces) == Joined(old(out.pieces)) + DumpFields(v, keys)
    decreases v, 1
  {
    hide Dump, DumpFields, FieldsLeft, EscapeString;
    ghost var start := Joined(out.pieces);
    NoFieldsLeft(v, keys);
    for i := 0 to |keys|
      invariant Joined(out.pieces) + FieldsLeft(v, keys, i) == start + DumpFields(v, keys)
    {
      FieldsNext(v, keys, i);
      ghost var before := Joined(out.pieces);
      if i > 0 {
        out.Append(",");
      }
      var key := EscapeText(keys[i]);
      out.Append(key);
      out.Append(":");
      Print(v.fields[keys[i]], out);
      ghost var comma, value, rest := if i == 0 then "" else ",", Dump(v.fields[keys[i]]), FieldsLeft(v, keys, i + 1);
      Regroup(before, comma, key, ":" + (value + rest));
      Regroup(before + comma + key, ":", value, rest);
    }
  }

  /** `dumps`, before the text is encoded as UTF-8. */
  method Dumps(v: Value) returns (text: string)
    ensures text == Dump(v)
  {
    var out := new Output();
    Print(v, out);
    assert "" + Dump(v) == Dump(v);
    text := Joined(out.pieces);
  }
}
