/** The DER reader and encoder (app/derutil.py): tag-length-value items, base-128 numbers,
    object identifiers and policy mappings, as functions of the bytes. */
module Der {
  import opened Basics

  datatype Result<+T> = Ok(value: T) | Err(error: DerError)

  datatype DerError =
    | TruncatedTag | MultiByteTag | TruncatedLength | IndefiniteLength | TruncatedLengthBytes | TruncatedContent
    | TruncatedNumber | NotAnOid | BadOid | MappingsNotSequence | MappingNotSequence | MappingNotTwoOids

  // ----- Tag, length, value --------------------------------------------------------------------

  /** `int.from_bytes(..., "big")`. */
  function FromBytes(s: Bytes): nat {
    if s == [] then 0 else 256 * FromBytes(s[..|s| - 1]) + s[|s| - 1]
  }

  datatype Tlv = Tlv(tag: Byte, start: nat, end: nat)

  /** `read_tlv`. */
  function ReadTlv(data: Bytes, pos: nat): (r: Result<Tlv>)
    ensures r.Ok? ==> pos < r.value.start <= r.value.end <= |data|
  {
    if pos >= |data| then Err(TruncatedTag)
    else if data[pos] % 32 == 31 then Err(MultiByteTag)
    else if pos + 1 >= |data| then Err(TruncatedLength)
    else
      var length := data[pos + 1];
      if length < 128 then Content(data, data[pos], pos + 2, length)
      else
        var n := length - 128;
        if n == 0 then Err(IndefiniteLength)
        else if pos + 2 + n > |data| then Err(TruncatedLengthBytes)
        else Content(data, data[pos], pos + 2 + n, FromBytes(data[pos + 2..pos + 2 + n]))
  }

  function Content(data: Bytes, tag: Byte, start: nat, length: nat): Result<Tlv> {
    if start + length > |data| then Err(TruncatedContent) else Ok(Tlv(tag, start, start + length))
  }

  /** The shortest big-endian form, as `to_bytes` with `(bit_length + 7) // 8` bytes gives it. */
  function ToBytes(n: nat): (s: Bytes)
    requires n > 0
    ensures |s| > 0 && s[0] != 0
  {
    if n < 256 then [n] else ToBytes(n / 256) + [n % 256]
  }

  function LengthBytes(n: nat): Bytes
    requires n < MAX_LENGTH
  {
    if n < 128 then [n]
    else
      ToBytesLength(n, 8);
      [128 + |ToBytes(n)|] + ToBytes(n)
  }

  /** No Python object is longer. */
  const MAX_LENGTH: nat := 0x8000_0000_0000_0000

  function Pow256(k: nat): nat {
    if k == 0 then 1 else 256 * Pow256(k - 1)
  }

  lemma {:induction false} ToBytesLength(n: nat, k: nat)
    requires 0 < n && (n < Pow256(k) || (k == 8 && n < MAX_LENGTH))
    ensures |ToBytes(n)| <= k
  {
    assert k == 8 ==> Pow256(8) == 0x1_0000_0000_0000_0000;
    if n >= 256 {
      ToBytesLength(n / 256, k - 1);
    }
  }

  /** `encode_tlv`. */
  function EncodeTlv(tag: Byte, content: Bytes): Bytes
    requires |content| < MAX_LENGTH
  {
    [tag] + LengthBytes(|content|) + content
  }

  // ----- Base-128 numbers -------------------------------------------------------------------------

  /** The leading groups of a base-128 number, each with the continuation bit. */
  function LeadingGroups(n: nat): Bytes {
    if n == 0 then [] else LeadingGroups(n / 128) + [128 + n % 128]
  }

  function Base128(n: nat): Bytes {
    LeadingGroups(n / 128) + [n % 128]
  }

  datatype Number = Number(value: nat, next: nat)

  /** `_read_base128`, with the value read so far. */
  function ReadFrom(data: Bytes, pos: nat, value: nat): (r: Result<Number>)
    ensures r.Ok? ==> pos < r.value.next <= |data|
    decreases |data| - pos
  {
    if pos >= |data| then Err(TruncatedNumber)
    else if data[pos] < 128 then Ok(Number(value * 128 + data[pos], pos + 1))
    else ReadFrom(data, pos + 1, value * 128 + (data[pos] - 128))
  }

  function ReadBase128(data: Bytes, pos: nat): Result<Number> {
    ReadFrom(data, pos, 0)
  }

  // ----- Object identifiers ------------------------------------------------------------------------

  type Oid = seq<nat>

  predicate ValidOid(oid: Oid) {
    |oid| >= 2 && oid[0] <= 2 && (oid[0] < 2 ==> oid[1] <= 39)
  }

  function ArcsBytes(arcs: seq<nat>): Bytes {
    if arcs == [] then [] else Base128(arcs[0]) + ArcsBytes(arcs[1..])
  }

  /** The content of an encoded object identifier; the first two arcs share a number. */
  function OidContent(oid: Oid): Bytes
    requires ValidOid(oid)
  {
    Base128(40 * oid[0] + oid[1]) + ArcsBytes(oid[2..])
  }

  /** `oid_to_der`. */
  function OidToDer(oid: Oid): Result<Bytes> {
    if !ValidOid(oid) || |OidContent(oid)| >= MAX_LENGTH then Err(BadOid) else Ok(EncodeTlv(6, OidContent(oid)))
  }

  function SplitFirst(first: nat): (arcs: seq<nat>)
    ensures |arcs| == 2
  {
    if first < 40 then [0, first] else if first < 80 then [1, first - 40] else [2, first - 80]
  }

  /** The arcs from `pos` up to `end`, after those read so far. */
  function ReadArcs(data: Bytes, pos: nat, end: nat, arcs: seq<nat>): Result<seq<nat>>
    requires pos <= |data|
    decreases |data| - pos
  {
    if pos >= end then Ok(arcs)
    else
      match ReadBase128(data, pos)
      case Err(e) => Err(e)
      case Ok(Number(v, next)) => ReadArcs(data, next, end, arcs + [v])
  }

  datatype OidRead = OidRead(oid: Oid, end: nat)

  /** `der_to_oid`. */
  function DerToOid(tlv: Bytes): (r: Result<OidRead>)
    ensures r.Ok? ==> r.value.end <= |tlv|
  {
    match ReadTlv(tlv, 0)
    case Err(e) => Err(e)
    case Ok(Tlv(tag, start, end)) =>
      if tag != 6 then Err(NotAnOid)
      else
        match ReadBase128(tlv, start)
        case Err(e) => Err(e)
        case Ok(Number(first, pos)) =>
          match ReadArcs(tlv, pos, end, SplitFirst(first))
          case Err(e) => Err(e)
          case Ok(arcs) => Ok(OidRead(arcs, end))
  }

  // ----- Policy mappings ------------------------------------------------------------------------------

  type Mapping = (Oid, Oid)

  /** The two object identifiers of one mapping. */
  function ReadMapping(inner: Bytes): Result<Mapping> {
    match DerToOid(inner)
    case Err(e) => Err(e)
    case Ok(OidRead(issuer, p2)) =>
      match DerToOid(inner[p2..])
      case Err(e) => Err(e)
      case Ok(OidRead(subject, p3)) => if p2 + p3 != |inner| then Err(MappingNotTwoOids) else Ok((issuer, subject))
  }

  function ReadMappings(data: Bytes, pos: nat, end: nat, found: seq<Mapping>): Result<seq<Mapping>>
    requires pos <= |data|
    decreases |data| - pos
  {
    if pos >= end then Ok(found)
    else
      match ReadTlv(data, pos)
      case Err(e) => Err(e)
      case Ok(Tlv(tag, es, ee)) =>
        if tag != 48 then Err(MappingNotSequence)
        else
          match ReadMapping(data[es..ee])
          case Err(e) => Err(e)
          case Ok(m) => ReadMappings(data, ee, end, found + [m])
  }

  /** `parse_policy_mappings`. */
  function ParsePolicyMappings(extnValue: Bytes): Result<seq<Mapping>> {
    match ReadTlv(extnValue, 0)
    case Err(e) => Err(e)
    case Ok(Tlv(tag, start, end)) =>
      if tag != 48 then Err(MappingsNotSequence) else ReadMappings(extnValue, start, end, [])
  }
}
