/** The loops of the DER reader and encoder (app/derutil.py), each against its function of the bytes. */
module DerReaders {
  import opened Basics
  import opened Der

  /** `_read_base128`. */
  method ReadNumber(data: Bytes, start: nat) returns (r: Result<Number>)
    ensures r == ReadBase128(data, start)
  {
    var value: nat, pos: nat := 0, start;
    while true
      invariant pos >= start && ReadBase128(data, start) == ReadFrom(data, pos, value)
      decreases |data| - pos
    {
      if pos >= |data| {
        return Err(TruncatedNumber);
      }
      var b := data[pos];
      pos := pos + 1;
      value := value * 128 + b % 128;
      if b < 128 {
        return Ok(Number(value, pos));
      }
    }
  }

  function Reversed(s: Bytes): (r: Bytes)
    ensures |r| == |s|
  {
    if s == [] then [] else Reversed(s[1..]) + [s[0]]
  }

  lemma ReversedSnoc(s: Bytes, x: Byte)
    ensures Reversed(s + [x]) == [x] + Reversed(s)
  {
    if s != [] {
      assert (s + [x])[1..] == s[1..] + [x];
    }
  }

  /** The stack of seven-bit groups that `oid_to_der` builds for one arc, reversed. */
  method EncodeNumber(arc: nat) returns (encoded: Bytes)
    ensures encoded == Base128(arc)
  {
    var rest: nat, stack: Bytes := arc / 128, [arc % 128];
    assert stack[1..] == [];
    while rest > 0
      invariant Base128(arc) == LeadingGroups(rest) + Reversed(stack)
    {
      ReversedSnoc(stack, 128 + rest % 128);
      stack := stack + [128 + rest % 128];
      rest := rest / 128;
    }
    encoded := Reversed(stack);
  }

  /** `oid_to_der`. */
  method EncodeOid(parts: Oid) returns (r: Result<Bytes>)
    ensures r == OidToDer(parts)
  {
    hide Base128, EncodeTlv;
    if !ValidOid(parts) {
      return Err(BadOid);
    }
    var out := EncodeNumber(40 * parts[0] + parts[1]);
    var arcs := parts[2..];
    assert arcs[0..] == arcs;
    for i := 0 to |arcs|
      invariant OidContent(parts) == out + ArcsBytes(arcs[i..])
    {
      var encoded := EncodeNumber(arcs[i]);
      assert arcs[i..][1..] == arcs[i + 1..];
      assert out + (encoded + ArcsBytes(arcs[i + 1..])) == (out + encoded) + ArcsBytes(arcs[i + 1..]);
      out := out + encoded;
    }
    assert arcs[|arcs|..] == [] && out + [] == out;
    if |out| >= MAX_LENGTH {
      return Err(BadOid);
    }
    r := Ok(EncodeTlv(6, out));
  }

  /** `der_to_oid`. */
  method DecodeOid(tlv: Bytes) returns (r: Result<OidRead>)
    ensures r == DerToOid(tlv)
  {
    hide ReadTlv, ReadBase128;
    var item := ReadTlv(tlv, 0);
    if item.Err? {
      return Err(item.error);
    }
    var Tlv(tag, start, end) := item.value;
    if tag != 6 {
      return Err(NotAnOid);
    }
    var first := ReadNumber(tlv, start);
    if first.Err? {
      return Err(first.error);
    }
    NumberWithin(tlv, start);
    var arcs, pos := SplitFirst(first.value.value), first.value.next;
    while pos < end
      invariant pos <= |tlv|
      invariant ReadArcs(tlv, first.value.next, end, SplitFirst(first.value.value)) == ReadArcs(tlv, pos, end, arcs)
      decreases |tlv| - pos
    {
      NumberWithin(tlv, pos);
      var next := ReadNumber(tlv, pos);
      if next.Err? {
        return Err(next.error);
      }
      arcs, pos := arcs + [next.value.value], next.value.next;
    }
    r := Ok(OidRead(arcs, end));
  }

  lemma NumberWithin(data: Bytes, pos: nat)
    ensures ReadBase128(data, pos).Ok? ==> pos < ReadBase128(data, pos).value.next <= |data|
  {
  }

  /** The two identifiers of one mapping. */
  method DecodeMapping(inner: Bytes) returns (r: Result<Mapping>)
    ensures r == ReadMapping(inner)
  {
    hide DerToOid;
    var issuer := DecodeOid(inner);
    if issuer.Err? {
      return Err(issuer.error);
    }
    var p2 := issuer.value.end;
    var subject := DecodeOid(inner[p2..]);
    if subject.Err? {
      return Err(subject.error);
    }
    if p2 + subject.value.end != |inner| {
      return Err(MappingNotTwoOids);
    }
    r := Ok((issuer.value.oid, subject.value.oid));
  }

  /** `parse_policy_mappings`. */
  method DecodeMappings(extnValue: Bytes) returns (r: Result<seq<Mapping>>)
    ensures r == ParsePolicyMappings(extnValue)
  {
    hide ReadMapping;
    var item := ReadTlv(extnValue, 0);
    if item.Err? {
      return Err(item.error);
    }
    var Tlv(tag, start, end) := item.value;
    if tag != 48 {
      return Err(MappingsNotSequence);
    }
    var out: seq<Mapping>, pos := [], start;
    while pos < end
      invariant pos <= |extnValue|
      invariant ReadMappings(extnValue, start, end, []) == ReadMappings(extnValue, pos, end, out)
      decreases |extnValue| - pos
    {
      var entry := ReadTlv(extnValue, pos);
      if entry.Err? {
        return Err(entry.error);
      }
      if entry.value.tag != 48 {
        return Err(MappingNotSequence);
      }
      var m := DecodeMapping(extnValue[entry.value.start..entry.value.end]);
      if m.Err? {
        return Err(m.error);
      }
      out, pos := out + [m.value], entry.value.end;
    }
    r := Ok(out);
  }
}
