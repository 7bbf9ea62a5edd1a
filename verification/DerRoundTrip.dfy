/** The encoder and the reader undo each other; and exactly when an item that is read is the
    one the encoder writes. */
module DerRoundTrip {
  import opened Basics
  import opened Der

  // ----- Tag, length, value ---------------------------------------------------------------------

  lemma {:induction false} FromToBytes(n: nat)
    requires n > 0
    ensures FromBytes(ToBytes(n)) == n
  {
    if n >= 256 {
      FromToBytes(n / 256);
      assert (ToBytes(n / 256) + [n % 256])[..|ToBytes(n / 256)|] == ToBytes(n / 256);
    }
  }

  /** `data` holds the bytes `s` at `pos`. */
  ghost predicate HasAt(data: Bytes, pos: nat, s: Bytes) {
    pos + |s| <= |data| && data[pos..pos + |s|] == s
  }

  lemma HasParts(data: Bytes, pos: nat, a: Bytes, b: Bytes)
    ensures HasAt(data, pos, a + b) <==> HasAt(data, pos, a) && HasAt(data, pos + |a|, b)
  {
    if pos + |a + b| <= |data| {
      var whole := data[pos..pos + |a + b|];
      assert whole[..|a|] == data[pos..pos + |a|] && whole[|a|..] == data[pos + |a|..pos + |a| + |b|];
      assert (a + b)[..|a|] == a && (a + b)[|a|..] == b;
      assert whole == whole[..|a|] + whole[|a|..];
    }
  }

  lemma ByteAt(data: Bytes, pos: nat, b: Byte)
    requires HasAt(data, pos, [b])
    ensures pos < |data| && data[pos] == b
  {
    assert data[pos] == data[pos..pos + 1][0];
  }

  lemma LengthRead(data: Bytes, pos: nat, n: nat)
    requires n < MAX_LENGTH && HasAt(data, pos, LengthBytes(n))
    ensures pos < |data|
    ensures n < 128 ==> data[pos] == n && |LengthBytes(n)| == 1
    ensures n >= 128 ==>
              var k := |LengthBytes(n)| - 1;
              0 < k <= 8 && data[pos] == 128 + k && pos + 1 + k <= |data| && FromBytes(data[pos + 1..pos + 1 + k]) == n
  {
    if n < 128 {
      ByteAt(data, pos, n);
    } else {
      ToBytesLength(n, 8);
      HasParts(data, pos, [128 + |ToBytes(n)|], ToBytes(n));
      ByteAt(data, pos, 128 + |ToBytes(n)|);
      FromToBytes(n);
    }
  }

  /** Wherever an encoded item stands, it reads back with its tag and content. */
  lemma ReadEncoded(data: Bytes, pos: nat, tag: Byte, content: Bytes)
    requires tag % 32 != 31 && |content| < MAX_LENGTH && HasAt(data, pos, EncodeTlv(tag, content))
    ensures var end := pos + |EncodeTlv(tag, content)|;
            ReadTlv(data, pos) == Ok(Tlv(tag, end - |content|, end)) && HasAt(data, end - |content|, content)
  {
    hide LengthBytes, FromBytes, ToBytes;
    var len := LengthBytes(|content|);
    HasParts(data, pos, [tag] + len, content);
    HasParts(data, pos, [tag], len);
    ByteAt(data, pos, tag);
    LengthRead(data, pos + 1, |content|);
  }

  // ----- Base-128 numbers --------------------------------------------------------------------------

  lemma {:induction false} LeadingRead(data: Bytes, pos: nat, n: nat)
    requires HasAt(data, pos, LeadingGroups(n))
    ensures ReadFrom(data, pos, 0) == ReadFrom(data, pos + |LeadingGroups(n)|, n)
  {
    if n > 0 {
      var front, last := LeadingGroups(n / 128), [128 + n % 128];
      HasParts(data, pos, front, last);
      LeadingRead(data, pos, n / 128);
      var k := pos + |front|;
      assert data[k] == data[k..k + 1][0] == 128 + n % 128;
    }
  }

  lemma NumberRead(data: Bytes, pos: nat, n: nat)
    requires HasAt(data, pos, Base128(n))
    ensures ReadBase128(data, pos) == Ok(Number(n, pos + |Base128(n)|))
  {
    HasParts(data, pos, LeadingGroups(n / 128), [n % 128]);
    LeadingRead(data, pos, n / 128);
    var k := pos + |LeadingGroups(n / 128)|;
    assert data[k] == data[k..k + 1][0] == n % 128;
  }

  // ----- Object identifiers -------------------------------------------------------------------------

  lemma {:induction false} ArcsRead(data: Bytes, pos: nat, arcs: seq<nat>, found: seq<nat>)
    requires HasAt(data, pos, ArcsBytes(arcs))
    ensures ReadArcs(data, pos, pos + |ArcsBytes(arcs)|, found) == Ok(found + arcs)
    decreases |arcs|
  {
    if arcs == [] {
      assert found + arcs == found;
    } else {
      HasParts(data, pos, Base128(arcs[0]), ArcsBytes(arcs[1..]));
      NumberRead(data, pos, arcs[0]);
      ArcsRead(data, pos + |Base128(arcs[0])|, arcs[1..], found + [arcs[0]]);
      assert found + [arcs[0]] + arcs[1..] == found + arcs;
    }
  }

  lemma HasStart(s: Bytes, rest: Bytes)
    ensures HasAt(s + rest, 0, s)
  {
  }

  /** An encoded object identifier reads back, whatever bytes follow it. */
  lemma OidRoundTrip(oid: Oid, rest: Bytes)
    requires OidToDer(oid).Ok?
    ensures var der := OidToDer(oid).value;
            DerToOid(der + rest) == Ok(OidRead(oid, |der|))
  {
    hide ReadTlv, EncodeTlv, ReadBase128, ReadArcs, Base128, ArcsBytes, HasAt;
    var der, content := OidToDer(oid).value, OidContent(oid);
    var data := der + rest;
    HasStart(der, rest);
    ReadEncoded(data, 0, 6, content);
    var start, first := |der| - |content|, 40 * oid[0] + oid[1];
    HasParts(data, start, Base128(first), ArcsBytes(oid[2..]));
    NumberRead(data, start, first);
    ArcsRead(data, start + |Base128(first)|, oid[2..], SplitFirst(first));
    assert SplitFirst(first) + oid[2..] == oid;
  }

  // ----- Policy mappings ---------------------------------------------------------------------------

  predicate Encodable(m: Mapping) {
    OidToDer(m.0).Ok? && OidToDer(m.1).Ok? && |OidToDer(m.0).value| + |OidToDer(m.1).value| < MAX_LENGTH
  }

  function EncodeMapping(m: Mapping): Bytes
    requires Encodable(m)
  {
    EncodeTlv(48, OidToDer(m.0).value + OidToDer(m.1).value)
  }

  function EncodeAll(ms: seq<Mapping>): Bytes
    requires forall m :: m in ms ==> Encodable(m)
  {
    if ms == [] then [] else EncodeMapping(ms[0]) + EncodeAll(ms[1..])
  }

  lemma MappingRoundTrip(m: Mapping)
    requires Encodable(m)
    ensures ReadMapping(OidToDer(m.0).value + OidToDer(m.1).value) == Ok(m)
  {
    var a, b := OidToDer(m.0).value, OidToDer(m.1).value;
    OidRoundTrip(m.0, b);
    OidRoundTrip(m.1, []);
    assert (a + b)[|a|..] == b == b + [];
  }

  lemma {:induction false} MappingsRead(data: Bytes, pos: nat, ms: seq<Mapping>, found: seq<Mapping>)
    requires (forall m :: m in ms ==> Encodable(m)) && HasAt(data, pos, EncodeAll(ms))
    ensures ReadMappings(data, pos, pos + |EncodeAll(ms)|, found) == Ok(found + ms)
    decreases |ms|
  {
    hide ReadMapping, ReadTlv, OidToDer, HasAt, EncodeTlv;
    if ms == [] {
      assert found + ms == found;
    } else {
      var first, inner := EncodeMapping(ms[0]), OidToDer(ms[0].0).value + OidToDer(ms[0].1).value;
      HasParts(data, pos, first, EncodeAll(ms[1..]));
      EncodableFits(ms[0]);
      ReadEncoded(data, pos, 48, inner);
      SliceAt(data, pos + |first| - |inner|, inner);
      MappingRoundTrip(ms[0]);
      MappingsRead(data, pos + |first|, ms[1..], found + [ms[0]]);
      assert found + [ms[0]] + ms[1..] == found + ms;
    }
  }

  lemma SliceAt(data: Bytes, pos: nat, s: Bytes)
    requires HasAt(data, pos, s)
    ensures pos + |s| <= |data| && data[pos..pos + |s|] == s
  {
  }

  lemma EncodableFits(m: Mapping)
    requires Encodable(m)
    ensures |OidToDer(m.0).value + OidToDer(m.1).value| < MAX_LENGTH
    ensures EncodeMapping(m) == EncodeTlv(48, OidToDer(m.0).value + OidToDer(m.1).value)
  {
  }

  lemma SequenceRead(data: Bytes, start: nat, ms: seq<Mapping>)
    requires ReadTlv(data, 0) == Ok(Tlv(48, start, |data|)) && ReadMappings(data, start, |data|, []) == Ok(ms)
    ensures ParsePolicyMappings(data) == Ok(ms)
  {
  }

  /** Any list of pairs of object identifiers, each encoded by the encoder and wrapped in
      sequences, is parsed back to the list. */
  lemma MappingsRoundTrip(ms: seq<Mapping>)
    requires (forall m :: m in ms ==> Encodable(m)) && |EncodeAll(ms)| < MAX_LENGTH
    ensures ParsePolicyMappings(EncodeTlv(48, EncodeAll(ms))) == Ok(ms)
  {
    hide EncodeTlv, ReadTlv, ReadMappings, HasAt, EncodeAll, Encodable, ParsePolicyMappings;
    var content := EncodeAll(ms);
    var data := EncodeTlv(48, content);
    HasStart(data, []);
    assert data + [] == data;
    ReadEncoded(data, 0, 48, content);
    MappingsRead(data, |data| - |content|, ms, []);
    assert [] + ms == ms;
    SequenceRead(data, |data| - |content|, ms);
  }

  // ----- What the reader accepts beyond DER -----------------------------------------------------------

  lemma {:induction false} ToFromBytes(s: Bytes)
    requires s != [] && s[0] != 0
    ensures FromBytes(s) > 0 && ToBytes(FromBytes(s)) == s
  {
    var n := |s| - 1;
    assert s == s[..n] + [s[n]];
    if n > 0 {
      ToFromBytes(s[..n]);
    }
  }

  /** The length is in its shortest form: short below 128, else without leading zeros. */
  predicate ShortestLength(data: Bytes, pos: nat)
    requires ReadTlv(data, pos).Ok?
  {
    data[pos + 1] < 128
    || (data[pos + 2] != 0 && ReadTlv(data, pos).value.end - ReadTlv(data, pos).value.start >= 128)
  }

  /** The reader also accepts longer forms of the length: what it reads is what the encoder
      writes exactly when the length is in its shortest form. */
  lemma OnlyShortestIsDer(data: Bytes, pos: nat)
    requires ReadTlv(data, pos).Ok?
    requires ReadTlv(data, pos).value.end - ReadTlv(data, pos).value.start < MAX_LENGTH
    ensures var Tlv(tag, start, end) := ReadTlv(data, pos).value;
            EncodeTlv(tag, data[start..end]) == data[pos..end] <==> ShortestLength(data, pos)
  {
    hide FromBytes, ToBytes;
    var Tlv(tag, start, end) := ReadTlv(data, pos).value;
    var content, length := data[start..end], data[pos + 1..start];
    assert data[pos..end] == [tag] + length + content;
    HeadersDiffer(tag, LengthBytes(|content|), length, content);
    if data[pos + 1] >= 128 {
      var digits := data[pos + 2..start];
      assert length == [data[pos + 1]] + digits && digits != [] && digits[0] == data[pos + 2];
      if digits[0] != 0 {
        ToFromBytes(digits);
      }
    }
  }

  lemma HeadersDiffer(tag: Byte, a: Bytes, b: Bytes, content: Bytes)
    ensures [tag] + a + content == [tag] + b + content <==> a == b
  {
    if [tag] + a + content == [tag] + b + content {
      var x, y := [tag] + a + content, [tag] + b + content;
      assert |a| == |b| && x[1..1 + |a|] == a && y[1..1 + |b|] == b;
    }
  }

  lemma {:induction false} LeadingStart(n: nat)
    requires n > 0
    ensures |LeadingGroups(n)| > 0 && LeadingGroups(n)[0] > 128
  {
    if n >= 128 {
      LeadingStart(n / 128);
    }
  }

  lemma {:induction false} GroupsRead(data: Bytes, pos: nat, cur: nat, v: nat)
    requires pos <= cur <= |data| && data[pos..cur] == LeadingGroups(v) && (v == 0 ==> cur < |data| && data[cur] != 128)
    requires ReadFrom(data, cur, v).Ok?
    ensures var Number(value, next) := ReadFrom(data, cur, v).value;
            Base128(value) == data[pos..next]
    decreases |data| - cur
  {
    assert data[pos..cur + 1] == data[pos..cur] + [data[cur]];
    if data[cur] >= 128 {
      assert (v * 128 + (data[cur] - 128)) / 128 == v;
      GroupsRead(data, pos, cur + 1, v * 128 + (data[cur] - 128));
    } else {
      assert (v * 128 + data[cur]) / 128 == v;
    }
  }

  /** A base-128 number is what the encoder writes exactly when it has no leading zero group. */
  lemma OnlyMinimalNumbersAreDer(data: Bytes, pos: nat)
    requires ReadBase128(data, pos).Ok?
    ensures var Number(value, next) := ReadBase128(data, pos).value;
            Base128(value) == data[pos..next] <==> data[pos] != 128
  {
    var Number(value, next) := ReadBase128(data, pos).value;
    if data[pos] != 128 {
      assert data[pos..pos] == LeadingGroups(0);
      GroupsRead(data, pos, pos, 0);
    } else {
      if value / 128 > 0 {
        LeadingStart(value / 128);
      }
      assert Base128(value)[0] != data[pos..next][0];
    }
  }

  /** The bytes from `pos` to `end` are numbers without leading zero groups, the last one
      ending just there. */
  predicate MinimalArcs(data: Bytes, pos: nat, end: nat)
    decreases end - pos
  {
    pos == end
    || (pos < end && ReadBase128(data, pos).Ok? && data[pos] != 128
        && ReadBase128(data, pos).value.next <= end && MinimalArcs(data, ReadBase128(data, pos).value.next, end))
  }

  lemma {:induction false} MinimalArcsEncode(data: Bytes, pos: nat, end: nat, found: seq<nat>) returns (arcs: seq<nat>)
    requires pos <= end <= |data| && MinimalArcs(data, pos, end)
    ensures ReadArcs(data, pos, end, found) == Ok(found + arcs) && ArcsBytes(arcs) == data[pos..end]
    decreases end - pos
  {
    hide ReadBase128, Base128;
    arcs := [];
    assert found + [] == found;
    if pos < end {
      var Number(v, next) := ReadBase128(data, pos).value;
      OnlyMinimalNumbersAreDer(data, pos);
      NumberAdvances(data, pos);
      var rest := MinimalArcsEncode(data, next, end, found + [v]);
      arcs := [v] + rest;
      assert found + [v] + rest == found + arcs;
      assert data[pos..next] + data[next..end] == data[pos..end];
    }
  }

  lemma NumberAdvances(data: Bytes, pos: nat)
    ensures ReadBase128(data, pos).Ok? ==> pos < ReadBase128(data, pos).value.next <= |data|
  {
  }

  lemma {:induction false} EncodedArcsAreMinimal(data: Bytes, pos: nat, arcs: seq<nat>)
    requires HasAt(data, pos, ArcsBytes(arcs))
    ensures MinimalArcs(data, pos, pos + |ArcsBytes(arcs)|)
    decreases |arcs|
  {
    hide ReadBase128, Base128, HasAt;
    if arcs != [] {
      HasParts(data, pos, Base128(arcs[0]), ArcsBytes(arcs[1..]));
      NumberRead(data, pos, arcs[0]);
      SliceAt(data, pos, Base128(arcs[0]));
      OnlyMinimalNumbersAreDer(data, pos);
      NumberAdvances(data, pos);
      EncodedArcsAreMinimal(data, pos + |Base128(arcs[0])|, arcs[1..]);
    }
  }

  lemma FirstArcsJoin(first: nat)
    ensures var arcs := SplitFirst(first);
            40 * arcs[0] + arcs[1] == first && arcs[0] <= 2 && (arcs[0] < 2 ==> arcs[1] <= 39)
  {
  }

  /** The content that was read is the one the encoder writes exactly when it consists of
      minimal numbers. */
  lemma OnlyMinimalContentIsDer(data: Bytes, start: nat, end: nat, oid: Oid)
    requires start <= end <= |data| && ReadBase128(data, start).Ok?
    requires ReadArcs(data, ReadBase128(data, start).value.next, end,
        SplitFirst(ReadBase128(data, start).value.value)) == Ok(oid)
    ensures ValidOid(oid) && OidContent(oid) == data[start..end] <==> start < end && MinimalArcs(data, start, end)
  {
    hide ReadBase128, Base128, ReadArcs, ArcsBytes, HasAt;
    var Number(first, next) := ReadBase128(data, start).value;
    FirstArcsJoin(first);
    NumberAdvances(data, start);
    if start < end && MinimalArcs(data, start, end) {
      OnlyMinimalNumbersAreDer(data, start);
      var rest := MinimalArcsEncode(data, next, end, SplitFirst(first));
      assert oid == SplitFirst(first) + rest && oid[2..] == rest;
      assert data[start..next] + data[next..end] == data[start..end];
    }
    if ValidOid(oid) && OidContent(oid) == data[start..end] {
      var joined := 40 * oid[0] + oid[1];
      assert HasAt(data, start, OidContent(oid)) by {
        SliceIsAt(data, start, end);
      }
      HasParts(data, start, Base128(joined), ArcsBytes(oid[2..]));
      NumberRead(data, start, joined);
      SliceAt(data, start, Base128(joined));
      OnlyMinimalNumbersAreDer(data, start);
      EncodedArcsAreMinimal(data, next, oid[2..]);
    }
  }

  lemma SliceIsAt(data: Bytes, start: nat, end: nat)
    requires start <= end <= |data|
    ensures HasAt(data, start, data[start..end])
  {
  }

  /** The reader of object identifiers takes more than DER: what it reads is what the encoder
      writes exactly when the length is in its shortest form and the content consists of
      minimal numbers that end where it ends. */
  lemma OnlyMinimalOidsAreDer(tlv: Bytes)
    requires DerToOid(tlv).Ok? && |tlv| < MAX_LENGTH
    ensures var OidRead(oid, end) := DerToOid(tlv).value;
            var start := ReadTlv(tlv, 0).value.start;
            OidToDer(oid) == Ok(tlv[..end]) <==>
              ShortestLength(tlv, 0) && start < end && MinimalArcs(tlv, start, end)
  {
    hide ReadBase128, ReadTlv, ReadArcs, MinimalArcs, OidContent, EncodeTlv, ShortestLength, HasAt;
    var OidRead(oid, end) := DerToOid(tlv).value;
    var Tlv(tag, start, _) := ReadTlv(tlv, 0).value;
    assert tlv[0..end] == tlv[..end];
    OnlyMinimalContentIsDer(tlv, start, end, oid);
    OnlyShortestIsDer(tlv, 0);
    if OidToDer(oid) == Ok(tlv[..end]) {
      SliceIsAt(tlv, 0, end);
      ReadEncoded(tlv, 0, 6, OidContent(oid));
      SliceAt(tlv, start, OidContent(oid));
    }
  }

  /** Items with a long-form length and with a padded arc that the reader takes. */
  lemma LaxExamples()
    ensures ReadTlv([4, 129, 1, 7], 0) == Ok(Tlv(4, 3, 4)) && EncodeTlv(4, [7]) == [4, 1, 7]
    ensures ReadBase128([128, 5], 0) == Ok(Number(5, 2)) && Base128(5) == [5]
  {
    assert FromBytes([1]) == 1 by {
      assert [1][..0] == [];
    }
    assert [4, 129, 1, 7][2..3] == [1];
    assert LeadingGroups(0) == [];
    assert ReadFrom([128, 5], 1, 0) == Ok(Number(5, 2));
  }

  // ----- What is read -----------------------------------------------------------------------------

  /** The bytes of a length: one byte below 128, or a count of bytes above 128 and these bytes. */
  predicate SaysLength(bytes: Bytes, n: nat) {
    (|bytes| == 1 && bytes[0] == n && n < 128)
    || (|bytes| > 1 && bytes[0] == 127 + |bytes| && FromBytes(bytes[1..]) == n)
  }

  /** An item is read exactly where a tag of one byte, the bytes of a length and so much content are. */
  lemma ItemsMean(data: Bytes, pos: nat, tag: Byte, start: nat, end: nat)
    ensures ReadTlv(data, pos) == Ok(Tlv(tag, start, end)) <==>
              && pos + 2 <= start <= end <= |data| && data[pos] == tag && tag % 32 != 31
              && SaysLength(data[pos + 1..start], end - start)
  {
    if pos + 2 <= start <= |data| {
      var bytes := data[pos + 1..start];
      assert bytes[0] == data[pos + 1] && bytes[1..] == data[pos + 2..start];
    }
  }

  /** Why no item is read: the first of these that is the case. */
  lemma ItemErrorsMean(data: Bytes, pos: nat)
    ensures match ReadTlv(data, pos)
            case Ok(_) => true
            case Err(TruncatedTag) => pos >= |data|
            case Err(MultiByteTag) => pos < |data| && data[pos] % 32 == 31
            case Err(TruncatedLength) => pos + 1 == |data| && data[pos] % 32 != 31
            case Err(IndefiniteLength) => pos + 1 < |data| && data[pos] % 32 != 31 && data[pos + 1] == 128
            case Err(TruncatedLengthBytes) =>
              pos + 1 < |data| && data[pos] % 32 != 31 && data[pos + 1] > 128
              && |data[pos + 2..]| < data[pos + 1] - 128
            case Err(TruncatedContent) =>
              pos + 1 < |data| && data[pos] % 32 != 31 && data[pos + 1] != 128
              && (data[pos + 1] > 128 ==> |data[pos + 2..]| >= data[pos + 1] - 128)
            case Err(_) => false
  {
  }
}
