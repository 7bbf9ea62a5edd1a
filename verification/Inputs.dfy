/** Adjudication inputs as they arrive, and their normal form (app/adjudicate.py, `validate_input`). */
module Inputs {
  import opened Basics
  import opened Certificates
  import opened Worlds
  import opened Reports
  import Json = CanonicalJson
  import NameConstraints
  import Policies
  import Strings

  /** The texts of an input; no initial policy set is `None`. */
  datatype RawInput = RawInput(
    artifactDigest: string, signature: string, algorithm: string,
    signedAt: string, knowledgeCutoff: string, leaf: string,
    anchors: seq<string>, initialPolicySet: Option<seq<string>>)

  datatype InputError =
    | NotAnObject | Missing(field: string)
    | BadArtifactDigest | BadSignature | EmptySignature | UnsupportedAlgorithm
    | BadTime | BadLeaf | NoAnchors | BadAnchor | PoliciesNotAList | BadPolicy | PolicyNotText

  datatype Checked = Normal(input: RawInput) | Rejected(error: InputError)

  /** Base64 and RFC 3339 timestamps as texts. */
  datatype Texts = Texts(
    decode64: string -> Option<Bytes>, encode64: Bytes -> string,
    parseTime: string -> Option<Instant>, canonTime: Instant -> string)
  {
    /** The canonical form of what this text says reads as what it says. */
    predicate KeepsBytes(s: string) {
      decode64(s).Some? ==> decode64(encode64(decode64(s).value)) == decode64(s)
    }

    predicate KeepsTime(s: string) {
      parseTime(s).Some? ==> parseTime(canonTime(parseTime(s).value)) == parseTime(s)
    }

    /** The canonical form does not read as something else; it may fail to read. */
    predicate BytesNotMisread(s: string) {
      decode64(s).Some? && decode64(encode64(decode64(s).value)).Some? ==> KeepsBytes(s)
    }

    predicate TimeNotMisread(s: string) {
      parseTime(s).Some? && parseTime(canonTime(parseTime(s).value)).Some? ==> KeepsTime(s)
    }

    /** The text is the canonical form of what it says. */
    predicate CanonicalBytes(s: string) {
      decode64(s).Some? && decode64(s).value != [] && encode64(decode64(s).value) == s
    }

    predicate CanonicalTime(s: string) {
      parseTime(s).Some? && canonTime(parseTime(s).value) == s
    }
  }

  const ANY_POLICY := "anyPolicy"
  const ARTIFACT_SIGNATURE_ALGORITHMS: set<string> := {"rsa-pss-sha256", "ecdsa-p256-sha256", "ed25519"}

  // ----- Fingerprints as texts -----------------------------------------------------------

  predicate IsHex(c: char) {
    '0' <= c <= '9' || 'a' <= c <= 'f'
  }

  predicate AllHex(s: string) {
    forall i :: 0 <= i < |s| ==> IsHex(s[i])
  }

  /** `is_fingerprint`. The end anchor of the pattern also accepts one newline. */
  predicate IsFingerprint(s: string) {
    (|s| == 64 && AllHex(s)) || (|s| == 65 && s[64] == '\n' && AllHex(s[..64]))
  }

  function Digit(c: char): (d: nat)
    requires IsHex(c)
    ensures d < 16
  {
    if c <= '9' then (c - '0') as nat else (c - 'a') as nat + 10
  }

  function Pow16(n: nat): (p: nat)
    ensures p > 0
  {
    if n == 0 then 1 else 16 * Pow16(n - 1)
  }

  lemma DigitFits(d: nat, p: nat, rest: nat)
    requires d < 16 && rest < p
    ensures d * p + rest < 16 * p
  {
    assert d * p <= 15 * p;
  }

  function HexValue(s: string): (v: nat)
    requires AllHex(s)
    ensures v < Pow16(|s|)
  {
    if s == "" then 0
    else
      var d, p, rest := Digit(s[0]), Pow16(|s| - 1), HexValue(s[1..]);
      DigitFits(d, p, rest);
      d * p + rest
  }

  /** The number a fingerprint stands for; with a newline, a number no object has. */
  function FpOf(s: string): Fp
    requires IsFingerprint(s)
  {
    if |s| == 64 then HexValue(s) else Pow16(64) + HexValue(s[..64])
  }

  lemma {:induction false} HexOrder(a: string, b: string)
    requires AllHex(a) && AllHex(b) && |a| == |b|
    ensures Strings.Less(a, b) <==> HexValue(a) < HexValue(b)
  {
    if a != "" {
      var d, e, p := Digit(a[0]), Digit(b[0]), Pow16(|a| - 1);
      HexOrder(a[1..], b[1..]);
      if d < e {
        HigherDigit(d, e, p, HexValue(a[1..]));
      } else if e < d {
        HigherDigit(e, d, p, HexValue(b[1..]));
      }
    }
  }

  lemma HigherDigit(d: nat, e: nat, p: nat, rest: nat)
    requires d < e && rest < p
    ensures d * p + rest < e * p
  {
    assert (d + 1) * p <= e * p;
  }

  /** Fingerprints as numbers: different texts are different numbers, and the text order of
      fingerprints is the order of their numbers. */
  lemma FingerprintsAreNumbers(a: string, b: string)
    requires IsFingerprint(a) && IsFingerprint(b)
    ensures FpOf(a) == FpOf(b) <==> a == b
    ensures |a| == |b| == 64 ==> (Strings.Less(a, b) <==> FpOf(a) < FpOf(b))
  {
    var x, y := a[..64], b[..64];
    assert |a| == 64 ==> x == a;
    assert |b| == 64 ==> y == b;
    HexOrder(x, y);
    HexOrder(y, x);
    Strings.LessStrict(x, y);
    assert |a| == |b| == 65 && x == y ==> a == b by {
      assert |a| == 65 ==> a == x + ['\n'];
      assert |b| == 65 ==> b == y + ['\n'];
    }
  }

  // ----- The normal form ------------------------------------------------------------------

  predicate IsNumeral(s: string) {
    s != "" && (forall i :: 0 <= i < |s| ==> '0' <= s[i] <= '9') && (s[0] == '0' ==> |s| == 1)
  }

  /** Two or more numerals between dots. */
  predicate IsDotted(s: string) {
    |NameConstraints.Labels(s)| >= 2 && forall l :: l in NameConstraints.Labels(s) ==> IsNumeral(l)
  }

  /** What an initial policy may be. The end anchor of the pattern also accepts one newline. */
  predicate PolicyOk(p: string) {
    p == ANY_POLICY || IsDotted(p) || (p != "" && p[|p| - 1] == '\n' && IsDotted(p[..|p| - 1]))
  }

  lemma {:induction false} LabelsHold(s: string, c: char)
    requires c in s && c != '.'
    ensures exists l :: l in NameConstraints.Labels(s) && c in l
  {
    var labels, rest := NameConstraints.Labels(s), NameConstraints.Labels(s[1..]);
    if s[0] == c {
      assert labels[0] == [c] + rest[0];
      assert labels[0] in labels && c in labels[0];
    } else {
      LabelsHold(s[1..], c);
      var l :| l in rest && c in l;
      if s[0] == '.' {
        assert labels == [""] + rest;
        assert l in labels;
      } else if l == rest[0] {
        assert labels[0] == [s[0]] + l;
        assert labels[0] in labels && c in labels[0];
      } else {
        assert l in rest[1..] && labels[1..] == rest[1..];
        assert l in labels;
      }
    }
  }

  lemma NoNewlineInside(s: string)
    requires '\n' in s
    ensures !IsDotted(s)
  {
    LabelsHold(s, '\n');
    var l :| l in NameConstraints.Labels(s) && '\n' in l;
    assert !IsNumeral(l);
  }

  /** A dotted identifier holds no newline, so an initial policy that ends in one equals the
      dotted identifier of no certificate policy. */
  lemma NewlinePolicyNamesNothing(p: string, oid: Policies.Dotted)
    requires PolicyOk(p) && p[|p| - 1] == '\n' && IsDotted(oid)
    ensures PolicyOf(p) == Policies.Named(p) && PolicyOf(p) != Policies.Named(oid) && PolicyOf(p) != Policies.AnyPolicy
  {
    assert '\n' in p;
    NoNewlineInside(p);
  }

  function InitialTexts(raw: RawInput): seq<string> {
    raw.initialPolicySet.GetOr([ANY_POLICY])
  }

  function InitialSet(raw: RawInput): set<string> {
    if InitialTexts(raw) == [] then {ANY_POLICY} else Strings.Members(InitialTexts(raw))
  }

  /** The first thing wrong with the texts of an input, in the order of the checks. */
  ghost function FirstError(raw: RawInput, texts: Texts): Option<InputError> {
    if !IsFingerprint(raw.artifactDigest) then Some(BadArtifactDigest)
    else if texts.decode64(raw.signature) == None then Some(BadSignature)
    else if texts.decode64(raw.signature) == Some([]) then Some(EmptySignature)
    else if raw.algorithm !in ARTIFACT_SIGNATURE_ALGORITHMS then Some(UnsupportedAlgorithm)
    else if texts.parseTime(raw.signedAt) == None || texts.parseTime(raw.knowledgeCutoff) == None then Some(BadTime)
    else if !IsFingerprint(raw.leaf) then Some(BadLeaf)
    else if raw.anchors == [] then Some(NoAnchors)
    else if exists a :: a in raw.anchors && !IsFingerprint(a) then Some(BadAnchor)
    else if exists p :: p in InitialTexts(raw) && !PolicyOk(p) then Some(BadPolicy)
    else None
  }

  ghost function NormalForm(raw: RawInput, texts: Texts): RawInput
    requires FirstError(raw, texts) == None
  {
    RawInput(raw.artifactDigest, texts.encode64(texts.decode64(raw.signature).value), raw.algorithm,
             texts.canonTime(texts.parseTime(raw.signedAt).value),
             texts.canonTime(texts.parseTime(raw.knowledgeCutoff).value),
             raw.leaf, Strings.Sorted(Strings.Members(raw.anchors)), Some(Strings.Sorted(InitialSet(raw))))
  }

  ghost function Normalized(raw: RawInput, texts: Texts): Checked {
    match FirstError(raw, texts)
    case Some(e) => Rejected(e)
    case None => Normal(NormalForm(raw, texts))
  }

  // ----- Inputs as they arrive -----------------------------------------------------------------

  function FieldOf(raw: Json.Value, name: string): Json.Value
    requires raw.Obj?
  {
    if name in raw.fields then raw.fields[name] else Json.Null
  }

  function TextOf(v: Json.Value): string {
    if v.Str? then v.text else ""
  }

  function TextsOf(v: Json.Value): seq<string> {
    if v.Arr? then seq(|v.items|, i requires 0 <= i < |v.items| => TextOf(v.items[i])) else []
  }

  /** `need`, and the check on the field. */
  function Needed(raw: Json.Value, name: string, error: Option<InputError>): Option<InputError>
    requires raw.Obj?
  {
    if name !in raw.fields then Some(Missing(name)) else error
  }

  function Or(a: Option<InputError>, b: Option<InputError>): Option<InputError> {
    if a.Some? then a else b
  }

  predicate FingerprintValue(v: Json.Value) {
    v.Str? && IsFingerprint(v.text)
  }

  function SignatureError(v: Json.Value, texts: Texts): Option<InputError> {
    if !v.Str? || texts.decode64(v.text) == None then Some(BadSignature)
    else if texts.decode64(v.text) == Some([]) then Some(EmptySignature)
    else None
  }

  function TimeError(v: Json.Value, texts: Texts): Option<InputError> {
    if v.Str? && texts.parseTime(v.text).Some? then None else Some(BadTime)
  }

  function AnchorsError(v: Json.Value): Option<InputError> {
    if !v.Arr? || v.items == [] then Some(NoAnchors)
    else if exists i :: 0 <= i < |v.items| && !FingerprintValue(v.items[i]) then Some(BadAnchor)
    else None
  }

  /** Python's falsy values count as the empty text here; on others that are no text the pattern
      raises an exception of its own. */
  function PolicyError(v: Json.Value): Option<InputError> {
    match v
    case Str(p) => if PolicyOk(p) then None else Some(BadPolicy)
    case Null => Some(BadPolicy)
    case Bool(truth) => Some(if truth then PolicyNotText else BadPolicy)
    case Int(i) => Some(if i != 0 then PolicyNotText else BadPolicy)
    case Arr(items) => Some(if items != [] then PolicyNotText else BadPolicy)
    case Obj(fields) => Some(if fields != map[] then PolicyNotText else BadPolicy)
  }

  /** The first wrong policy among the first `n`. */
  function PoliciesError(items: seq<Json.Value>, n: nat): Option<InputError>
    requires n <= |items|
  {
    if n == 0 then None else Or(PoliciesError(items, n - 1), PolicyError(items[n - 1]))
  }

  function InitialError(raw: Json.Value): Option<InputError>
    requires raw.Obj?
  {
    if "initial_policy_set" !in raw.fields then None
    else if !raw.fields["initial_policy_set"].Arr? then Some(PoliciesNotAList)
    else PoliciesError(raw.fields["initial_policy_set"].items, |raw.fields["initial_policy_set"].items|)
  }

  function Fault(bad: bool, error: InputError): Option<InputError> {
    if bad then Some(error) else None
  }

  /** The first thing wrong with an input as it arrives, in the order of the checks. */
  function RawError(raw: Json.Value, texts: Texts): Option<InputError> {
    if !raw.Obj? then Some(NotAnObject)
    else
      var f := (name: string) => FieldOf(raw, name);
      Or(Needed(raw, "artifact_digest", Fault(!FingerprintValue(f("artifact_digest")), BadArtifactDigest)),
      Or(Needed(raw, "signature", SignatureError(f("signature"), texts)),
      Or(Needed(raw, "signature_algorithm",
                Fault(TextOf(f("signature_algorithm")) !in ARTIFACT_SIGNATURE_ALGORITHMS, UnsupportedAlgorithm)),
      Or(Needed(raw, "signed_at", TimeError(f("signed_at"), texts)),
      Or(Needed(raw, "knowledge_cutoff", TimeError(f("knowledge_cutoff"), texts)),
      Or(Needed(raw, "leaf_fingerprint", Fault(!FingerprintValue(f("leaf_fingerprint")), BadLeaf)),
      Or(Needed(raw, "trust_anchors", AnchorsError(f("trust_anchors"))),
         InitialError(raw))))))))
  }

  /** The texts in the fields, each for what it is worth. */
  function Content(raw: Json.Value): RawInput
    requires raw.Obj?
  {
    RawInput(TextOf(FieldOf(raw, "artifact_digest")), TextOf(FieldOf(raw, "signature")),
             TextOf(FieldOf(raw, "signature_algorithm")), TextOf(FieldOf(raw, "signed_at")),
             TextOf(FieldOf(raw, "knowledge_cutoff")), TextOf(FieldOf(raw, "leaf_fingerprint")),
             TextsOf(FieldOf(raw, "trust_anchors")),
             if "initial_policy_set" in raw.fields then Some(TextsOf(raw.fields["initial_policy_set"])) else None)
  }

  const TEXT_FIELDS := ["artifact_digest", "signature", "signature_algorithm", "signed_at", "knowledge_cutoff",
                        "leaf_fingerprint"]

  predicate AllTexts(v: Json.Value) {
    v.Arr? && forall i :: 0 <= i < |v.items| ==> v.items[i].Str?
  }

  /** Every needed field is there, and every field that is read has the right type. */
  predicate WellTyped(raw: Json.Value) {
    raw.Obj? && (forall name :: name in TEXT_FIELDS ==> FieldOf(raw, name).Str?)
    && AllTexts(FieldOf(raw, "trust_anchors"))
    && ("initial_policy_set" in raw.fields ==> AllTexts(raw.fields["initial_policy_set"]))
  }

  lemma {:induction false} PoliciesErrorMeans(items: seq<Json.Value>, n: nat)
    requires n <= |items|
    ensures PoliciesError(items, n) == None <==> forall i :: 0 <= i < n ==> items[i].Str? && PolicyOk(items[i].text)
    ensures (forall i :: 0 <= i < n ==> items[i].Str?) && PoliciesError(items, n).Some? ==>
              PoliciesError(items, n) == Some(BadPolicy)
  {
    hide PolicyOk;
    if n > 0 {
      PoliciesErrorMeans(items, n - 1);
    }
  }

  /** An input is accepted exactly when its fields are there, of the right types, and their texts
      pass the checks; on well typed inputs also the errors are those of the texts. */
  lemma RawErrorMeans(raw: Json.Value, texts: Texts)
    ensures RawError(raw, texts) == None <==> WellTyped(raw) && FirstError(Content(raw), texts) == None
    ensures WellTyped(raw) ==> RawError(raw, texts) == FirstError(Content(raw), texts)
    ensures RawError(raw, texts) == None ==> raw.Obj?
  {
    hide IsFingerprint, PolicyOk, TextsOf, InitialTexts, AllTexts, AnchorsError, InitialError;
    if raw.Obj? {
      NullIsNoList();
      AnchorsMean(FieldOf(raw, "trust_anchors"));
      InitialMeans(raw);
    }
  }

  lemma NullIsNoList()
    ensures !AllTexts(Json.Null)
  {
  }

  lemma AnchorsMean(v: Json.Value)
    ensures AnchorsError(v) == None ==> AllTexts(v)
    ensures AllTexts(v) ==>
              AnchorsError(v) == if TextsOf(v) == [] then Some(NoAnchors)
                                 else Fault(exists a :: a in TextsOf(v) && !IsFingerprint(a), BadAnchor)
  {
    hide IsFingerprint;
    if AllTexts(v) && v.items != [] {
      var ts := TextsOf(v);
      forall i | 0 <= i < |v.items| ensures ts[i] == v.items[i].text && ts[i] in ts {
      }
    }
  }

  lemma AnyPolicyIsOk()
    ensures PolicyOk(ANY_POLICY)
  {
  }

  lemma InitialMeans(raw: Json.Value)
    requires raw.Obj?
    ensures InitialError(raw) == None && "initial_policy_set" in raw.fields ==>
              AllTexts(raw.fields["initial_policy_set"])
    ensures ("initial_policy_set" in raw.fields ==> AllTexts(raw.fields["initial_policy_set"])) ==>
              InitialError(raw) == Fault(exists p :: p in InitialTexts(Content(raw)) && !PolicyOk(p), BadPolicy)
  {
    hide PolicyOk;
    if "initial_policy_set" in raw.fields {
      var v := raw.fields["initial_policy_set"];
      if v.Arr? {
        PoliciesErrorMeans(v.items, |v.items|);
        var ts := TextsOf(v);
        forall i | 0 <= i < |v.items| ensures ts[i] == TextOf(v.items[i]) && ts[i] in ts {
        }
      }
    } else {
      AnyPolicyIsOk();
    }
  }

  /** The result of validation. */
  ghost function Validated(raw: Json.Value, texts: Texts): Checked {
    match RawError(raw, texts)
    case Some(e) => Rejected(e)
    case None =>
      RawErrorMeans(raw, texts);
      Normal(NormalForm(Content(raw), texts))
  }

  function JsonList(ts: seq<string>): Json.Value {
    Json.Arr(seq(|ts|, i requires 0 <= i < |ts| => Json.Str(ts[i])))
  }

  /** An input as a JSON object. */
  function AsJson(input: RawInput): Json.Value {
    var fields := map["artifact_digest" := Json.Str(input.artifactDigest), "signature" := Json.Str(input.signature),
                      "signature_algorithm" := Json.Str(input.algorithm), "signed_at" := Json.Str(input.signedAt),
                      "knowledge_cutoff" := Json.Str(input.knowledgeCutoff),
                      "leaf_fingerprint" := Json.Str(input.leaf), "trust_anchors" := JsonList(input.anchors)];
    Json.Obj(match input.initialPolicySet
             case None => fields
             case Some(ps) => fields["initial_policy_set" := JsonList(ps)])
  }

  lemma AsJsonReads(input: RawInput)
    ensures WellTyped(AsJson(input)) && Content(AsJson(input)) == input
  {
    var v := AsJson(input);
    ListReads(input.anchors);
    assert v.fields["trust_anchors"] == JsonList(input.anchors);
    if input.initialPolicySet.Some? {
      ListReads(input.initialPolicySet.value);
      assert v.fields["initial_policy_set"] == JsonList(input.initialPolicySet.value);
    }
    hide JsonList, TextsOf, AllTexts;
  }

  lemma ListReads(ts: seq<string>)
    ensures AllTexts(JsonList(ts)) && TextsOf(JsonList(ts)) == ts
  {
  }

  /** What is written as JSON is validated as what it is. */
  lemma ValidatedAsJson(input: RawInput, texts: Texts)
    ensures Validated(AsJson(input), texts) == Normalized(input, texts)
  {
    hide WellTyped, FirstError, RawError, Content, AsJson;
    AsJsonReads(input);
    RawErrorMeans(AsJson(input), texts);
  }

  /** `validate_input`. */
  method ValidateInput(raw: Json.Value, texts: Texts) returns (checked: Checked)
    ensures checked == Validated(raw, texts)
  {
    hide IsFingerprint, PolicyOk;
    if !raw.Obj? {
      return Rejected(NotAnObject);
    }
    var early := CheckTexts(raw, texts);
    if early.Some? {
      return Rejected(early.value);
    }
    var anchors := raw.fields["trust_anchors"];
    if !anchors.Arr? || anchors.items == [] {
      return Rejected(NoAnchors);
    }
    for i := 0 to |anchors.items|
      invariant forall k :: 0 <= k < i ==> FingerprintValue(anchors.items[k])
    {
      if !FingerprintValue(anchors.items[i]) {
        return Rejected(BadAnchor);
      }
    }
    var initial := [ANY_POLICY];
    if "initial_policy_set" in raw.fields {
      var given := raw.fields["initial_policy_set"];
      if !given.Arr? {
        return Rejected(PoliciesNotAList);
      }
      for i := 0 to |given.items|
        invariant PoliciesError(given.items, i) == None
      {
        var error := PolicyError(given.items[i]);
        if error.Some? {
          ErrorStays(given.items, i + 1, |given.items|);
          return Rejected(error.value);
        }
      }
      initial := TextsOf(given);
    }
    RawErrorMeans(raw, texts);
    var normal := Normalize(Content(raw), texts);
    checked := Normal(normal);
  }

  lemma {:induction false} ErrorStays(items: seq<Json.Value>, n: nat, all: nat)
    requires n <= all <= |items| && PoliciesError(items, n).Some?
    ensures PoliciesError(items, all) == PoliciesError(items, n)
    decreases all
  {
    if n < all {
      ErrorStays(items, n, all - 1);
    }
  }

  /** The checks up to the presence of trust anchors. */
  method CheckTexts(raw: Json.Value, texts: Texts) returns (error: Option<InputError>)
    requires raw.Obj?
    ensures error.Some? ==> RawError(raw, texts) == error
    ensures error == None ==>
              && "trust_anchors" in raw.fields
              && RawError(raw, texts) == Or(AnchorsError(raw.fields["trust_anchors"]), InitialError(raw))
  {
    hide IsFingerprint, PolicyOk;
    if "artifact_digest" !in raw.fields {
      return Some(Missing("artifact_digest"));
    }
    if !FingerprintValue(raw.fields["artifact_digest"]) {
      return Some(BadArtifactDigest);
    }
    if "signature" !in raw.fields {
      return Some(Missing("signature"));
    }
    var signature := raw.fields["signature"];
    if !signature.Str? {
      return Some(BadSignature);
    }
    var bytes := texts.decode64(signature.text);
    if bytes == None {
      return Some(BadSignature);
    }
    if bytes.value == [] {
      return Some(EmptySignature);
    }
    if "signature_algorithm" !in raw.fields {
      return Some(Missing("signature_algorithm"));
    }
    if TextOf(raw.fields["signature_algorithm"]) !in ARTIFACT_SIGNATURE_ALGORITHMS {
      return Some(UnsupportedAlgorithm);
    }
    if "signed_at" !in raw.fields {
      return Some(Missing("signed_at"));
    }
    if TimeError(raw.fields["signed_at"], texts).Some? {
      return Some(BadTime);
    }
    if "knowledge_cutoff" !in raw.fields {
      return Some(Missing("knowledge_cutoff"));
    }
    if TimeError(raw.fields["knowledge_cutoff"], texts).Some? {
      return Some(BadTime);
    }
    if "leaf_fingerprint" !in raw.fields {
      return Some(Missing("leaf_fingerprint"));
    }
    if !FingerprintValue(raw.fields["leaf_fingerprint"]) {
      return Some(BadLeaf);
    }
    if "trust_anchors" !in raw.fields {
      return Some(Missing("trust_anchors"));
    }
    error := None;
  }

  /** The normalized input, field by field. */
  method Normalize(raw: RawInput, texts: Texts) returns (normal: RawInput)
    requires FirstError(raw, texts) == None
    ensures normal == NormalForm(raw, texts)
  {
    hide IsFingerprint, PolicyOk;
    var initial := InitialTexts(raw);
    var anchors := Strings.SortDistinct(raw.anchors);
    var policies := [ANY_POLICY];
    if initial != [] {
      policies := Strings.SortDistinct(initial);
    } else {
      Strings.SortedAgain([ANY_POLICY]);
      assert Strings.Members([ANY_POLICY]) == {ANY_POLICY};
    }
    normal := RawInput(raw.artifactDigest, texts.encode64(texts.decode64(raw.signature).value), raw.algorithm,
                       texts.canonTime(texts.parseTime(raw.signedAt).value),
                       texts.canonTime(texts.parseTime(raw.knowledgeCutoff).value),
                       raw.leaf, anchors, Some(policies));
  }

  // ----- What the normal form is for ----------------------------------------------------------

  lemma NormalLists(raw: RawInput, texts: Texts)
    requires FirstError(raw, texts) == None
    ensures var n := NormalForm(raw, texts);
            && n.anchors != [] && (forall a :: a in n.anchors ==> IsFingerprint(a))
            && Strings.Members(n.anchors) == Strings.Members(raw.anchors)
            && InitialTexts(n) != [] && (forall p :: p in InitialTexts(n) ==> PolicyOk(p))
            && InitialSet(n) == InitialSet(raw)
  {
    hide IsFingerprint, PolicyOk;
    var n := NormalForm(raw, texts);
    assert raw.anchors[0] in Strings.Members(raw.anchors);
    assert raw.anchors[0] in n.anchors;
    NormalPolicies(raw);
  }

  lemma NormalPolicies(raw: RawInput)
    requires forall p :: p in InitialTexts(raw) ==> PolicyOk(p)
    ensures var ps := Strings.Sorted(InitialSet(raw));
            ps != [] && (forall p :: p in ps ==> PolicyOk(p)) && Strings.Members(ps) == InitialSet(raw)
  {
    hide PolicyOk;
    AnyPolicyIsOk();
    var ps, initial := Strings.Sorted(InitialSet(raw)), InitialTexts(raw);
    var p := if initial == [] then ANY_POLICY else initial[0];
    assert p in InitialSet(raw) && p in ps;
  }

  /** The signature and the times are texts in canonical form. */
  predicate InCanonicalForm(input: RawInput, texts: Texts) {
    texts.CanonicalBytes(input.signature) && texts.CanonicalTime(input.signedAt)
    && texts.CanonicalTime(input.knowledgeCutoff)
  }

  /** The signature and the times are kept by writing them in canonical form. */
  predicate Legible(raw: RawInput, texts: Texts) {
    texts.KeepsBytes(raw.signature) && texts.KeepsTime(raw.signedAt) && texts.KeepsTime(raw.knowledgeCutoff)
  }

  predicate Truthful(raw: RawInput, texts: Texts) {
    texts.BytesNotMisread(raw.signature) && texts.TimeNotMisread(raw.signedAt)
    && texts.TimeNotMisread(raw.knowledgeCutoff)
  }

  /** A normal form is valid and its own normal form exactly when its signature and times are in
      canonical form; they are if those of the input are kept by writing them so, or if they
      read at all and not as something else. */
  lemma NormalizingAgain(raw: RawInput, texts: Texts)
    requires FirstError(raw, texts) == None
    ensures var n := NormalForm(raw, texts);
            Normalized(n, texts) == Normal(n) <==> InCanonicalForm(n, texts)
    ensures var n := NormalForm(raw, texts);
            Legible(raw, texts) || (Truthful(raw, texts) && Usable(n, texts)) ==> InCanonicalForm(n, texts)
  {
    hide IsFingerprint, PolicyOk, InitialSet, InitialTexts;
    var n := NormalForm(raw, texts);
    NormalLists(raw, texts);
    if InCanonicalForm(n, texts) {
      assert FirstError(n, texts) == None;
    }
  }

  datatype Said = Said(
    artifact: string, signature: Option<Bytes>, algorithm: string, signedAt: Option<Instant>, cutoff: Option<Instant>,
    leaf: string, anchors: set<string>, initialPolicySet: set<string>)

  /** What a valid input says. */
  ghost function Meaning(raw: RawInput, texts: Texts): Said {
    Said(raw.artifactDigest, texts.decode64(raw.signature), raw.algorithm, texts.parseTime(raw.signedAt),
         texts.parseTime(raw.knowledgeCutoff), raw.leaf, Strings.Members(raw.anchors), InitialSet(raw))
  }

  /** Two valid inputs have the same normal form exactly when they say the same, whatever
      the order and repetition of their lists and the spelling of their texts. */
  lemma SameFormSameMeaning(a: RawInput, b: RawInput, texts: Texts)
    requires FirstError(a, texts) == None && FirstError(b, texts) == None && Legible(a, texts) && Legible(b, texts)
    ensures NormalForm(a, texts) == NormalForm(b, texts) <==> Meaning(a, texts) == Meaning(b, texts)
  {
    FormKeepsMeaning(a, texts);
    FormKeepsMeaning(b, texts);
  }

  lemma FormKeepsMeaning(raw: RawInput, texts: Texts)
    requires Legible(raw, texts) && FirstError(raw, texts) == None
    ensures Meaning(NormalForm(raw, texts), texts) == Meaning(raw, texts)
  {
    hide IsFingerprint, PolicyOk, InitialSet, InitialTexts;
    NormalLists(raw, texts);
  }

  /** Every field of the input can be read. */
  predicate Usable(raw: RawInput, texts: Texts) {
    && IsFingerprint(raw.leaf) && (forall a :: a in raw.anchors ==> IsFingerprint(a))
    && texts.decode64(raw.signature).Some? && texts.parseTime(raw.signedAt).Some?
    && texts.parseTime(raw.knowledgeCutoff).Some?
    && forall p :: p in InitialTexts(raw) ==> PolicyOk(p)
  }

  /** The engine's input for a valid raw input. */
  function EngineInput(raw: RawInput, texts: Texts): Input
    requires Usable(raw, texts)
  {
    Input(Question(FpOf(raw.leaf), set a | a in raw.anchors :: FpOf(a),
                   texts.parseTime(raw.signedAt).value, texts.parseTime(raw.knowledgeCutoff).value,
                   set p | p in InitialTexts(raw) :: PolicyOf(p)),
          raw.algorithm, texts.decode64(raw.signature).value, raw.artifactDigest)
  }

  function PolicyOf(p: string): Policies.Policy {
    if p == ANY_POLICY then Policies.AnyPolicy else Policies.Named(p)
  }

  /** The question that an input poses, told from its texts. */
  ghost predicate Poses(raw: RawInput, texts: Texts, q: Question) {
    && IsFingerprint(raw.leaf) && q.leaf == FpOf(raw.leaf)
    && (forall fp :: fp in q.anchors <==> exists a :: a in raw.anchors && IsFingerprint(a) && FpOf(a) == fp)
    && texts.parseTime(raw.signedAt) == Some(q.signedAt) && texts.parseTime(raw.knowledgeCutoff) == Some(q.cutoff)
    && (Policies.AnyPolicy in q.initialPolicySet <==> "anyPolicy" in raw.initialPolicySet.GetOr(["anyPolicy"]))
    && (forall p :: Policies.Named(p) in q.initialPolicySet <==>
          p != "anyPolicy" && p in raw.initialPolicySet.GetOr(["anyPolicy"]))
  }

  /** An input that can be read poses one question, and the engine is asked this one, about the
      signature, algorithm and digest in the texts. */
  lemma OneQuestion(raw: RawInput, texts: Texts)
    requires Usable(raw, texts)
    ensures var input := EngineInput(raw, texts);
            && (forall q :: Poses(raw, texts, q) <==> q == input.question)
            && texts.decode64(raw.signature) == Some(input.signature)
            && input.algorithm == raw.algorithm && input.artifact == raw.artifactDigest
  {
    hide IsFingerprint, PolicyOk, FpOf;
    var question := EngineInput(raw, texts).question;
    forall q | Poses(raw, texts, q) ensures q == question {
      assert forall fp :: fp in q.anchors <==> fp in question.anchors;
      assert forall p :: p in q.initialPolicySet <==> p in question.initialPolicySet by {
        forall p ensures p in q.initialPolicySet <==> p in question.initialPolicySet {
          SamePolicies(raw, texts, q, p);
        }
      }
      assert q.anchors == question.anchors && q.initialPolicySet == question.initialPolicySet;
    }
    forall p ensures p in question.initialPolicySet <==>
        (if p == Policies.AnyPolicy then "anyPolicy" in InitialTexts(raw)
         else p.oid != "anyPolicy" && p.oid in InitialTexts(raw)) {
      PolicyTexts(raw, texts, p);
    }
  }

  lemma PolicyTexts(raw: RawInput, texts: Texts, p: Policies.Policy)
    requires Usable(raw, texts)
    ensures p in EngineInput(raw, texts).question.initialPolicySet <==>
              if p == Policies.AnyPolicy then "anyPolicy" in InitialTexts(raw)
              else p.oid != "anyPolicy" && p.oid in InitialTexts(raw)
  {
    hide IsFingerprint, PolicyOk, FpOf;
    if p == Policies.AnyPolicy && "anyPolicy" in InitialTexts(raw) {
      assert PolicyOf("anyPolicy") == p;
    }
    if p.Named? && p.oid != "anyPolicy" && p.oid in InitialTexts(raw) {
      assert PolicyOf(p.oid) == p;
    }
  }

  lemma SamePolicies(raw: RawInput, texts: Texts, q: Question, p: Policies.Policy)
    requires Usable(raw, texts) && Poses(raw, texts, q)
    ensures p in q.initialPolicySet <==> p in EngineInput(raw, texts).question.initialPolicySet
  {
    hide IsFingerprint, PolicyOk, FpOf;
    PolicyTexts(raw, texts, p);
  }
}
