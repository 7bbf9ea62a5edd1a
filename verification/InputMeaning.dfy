/** Which adjudication inputs are accepted, spelled out: the fields of the JSON object, the characters
    of fingerprints and of policy identifiers, and the names of algorithms. */
module InputMeaning {
  import opened Basics
  import opened Inputs
  import Json = CanonicalJson
  import NameConstraints

  /** A field that is a text with this property. */
  ghost predicate TextField(raw: Json.Value, name: string, good: string -> bool)
    requires raw.Obj?
  {
    name in raw.fields && raw.fields[name].Str? && good(raw.fields[name].text)
  }

  /** 64 small hexadecimal digits, and perhaps a newline. */
  predicate HexText(s: string) {
    (|s| == 64 || (|s| == 65 && s[64] == '\n')) && forall i :: 0 <= i < 64 ==> s[i] in "0123456789abcdef"
  }

  /** A decimal number without leading zeros. */
  predicate Arc(s: string) {
    s != "" && (forall i :: 0 <= i < |s| ==> s[i] in "0123456789") && (|s| > 1 ==> s[0] != '0')
  }

  /** Arcs with dots between them. */
  function Dots(arcs: seq<string>): string
    requires arcs != []
  {
    if |arcs| == 1 then arcs[0] else arcs[0] + ['.'] + Dots(arcs[1..])
  }

  ghost predicate DottedText(s: string) {
    exists arcs: seq<string> :: |arcs| >= 2 && (forall a :: a in arcs ==> Arc(a)) && s == Dots(arcs)
  }

  ghost predicate PolicyText(s: string) {
    s == "anyPolicy" || DottedText(s) || (s != "" && s[|s| - 1] == '\n' && DottedText(s[..|s| - 1]))
  }

  /** All items are texts with this property. */
  ghost predicate TextList(v: Json.Value, good: string -> bool) {
    v.Arr? && forall i :: 0 <= i < |v.items| ==> v.items[i].Str? && good(v.items[i].text)
  }

  ghost predicate Acceptable(raw: Json.Value, texts: Texts) {
    && raw.Obj?
    && TextField(raw, "artifact_digest", s => HexText(s))
    && TextField(raw, "signature", s => texts.decode64(s).Some? && texts.decode64(s).value != [])
    && TextField(raw, "signature_algorithm", s => s == "rsa-pss-sha256" || s == "ecdsa-p256-sha256" || s == "ed25519")
    && TextField(raw, "signed_at", s => texts.parseTime(s).Some?)
    && TextField(raw, "knowledge_cutoff", s => texts.parseTime(s).Some?)
    && TextField(raw, "leaf_fingerprint", s => HexText(s))
    && "trust_anchors" in raw.fields && TextList(raw.fields["trust_anchors"], s => HexText(s))
    && raw.fields["trust_anchors"].items != []
    && ("initial_policy_set" in raw.fields ==> TextList(raw.fields["initial_policy_set"], s => PolicyText(s)))
  }

  lemma HexTextMeans(s: string)
    ensures IsFingerprint(s) <==> HexText(s)
  {
    assert forall c: char :: IsHex(c) <==> c in "0123456789abcdef";
    if |s| == 65 {
      assert forall i :: 0 <= i < 64 ==> s[..64][i] == s[i];
    }
  }

  lemma ArcMeans(s: string)
    ensures IsNumeral(s) <==> Arc(s)
  {
    assert forall c: char :: '0' <= c <= '9' <==> c in "0123456789";
  }

  lemma {:induction false} DotsJoin(arcs: seq<string>)
    requires arcs != []
    ensures Dots(arcs) == NameConstraints.Join(arcs)
  {
    if |arcs| > 1 {
      DotsJoin(arcs[1..]);
    }
  }

  lemma NoDot(arc: string)
    requires Arc(arc)
    ensures NameConstraints.Labels(arc) == [arc]
  {
    assert forall c :: c in "0123456789" ==> c != '.';
    OneLabel(arc);
  }

  lemma {:induction false} OneLabel(s: string)
    requires forall i :: 0 <= i < |s| ==> s[i] != '.'
    ensures NameConstraints.Labels(s) == [s]
  {
    if s != "" {
      OneLabel(s[1..]);
      assert [s[0]] + s[1..] == s;
    }
  }

  lemma {:induction false} ArcsAreLabels(arcs: seq<string>)
    requires arcs != [] && forall a :: a in arcs ==> Arc(a)
    ensures NameConstraints.Labels(Dots(arcs)) == arcs
  {
    hide Arc, NameConstraints.Labels;
    assert arcs[0] in arcs;
    NoDot(arcs[0]);
    if |arcs| > 1 {
      ArcsAreLabels(arcs[1..]);
      NameConstraints.LabelsOfJoined(arcs[0], Dots(arcs[1..]));
      assert Dots(arcs) == arcs[0] + "." + Dots(arcs[1..]);
    } else {
      assert arcs == [arcs[0]];
    }
  }

  lemma DottedMeans(s: string)
    ensures IsDotted(s) <==> DottedText(s)
  {
    hide IsNumeral, Arc, NameConstraints.Labels;
    forall l ensures IsNumeral(l) <==> Arc(l) {
      ArcMeans(l);
    }
    var labels := NameConstraints.Labels(s);
    NameConstraints.JoinOfLabels(s);
    DotsJoin(labels);
    if DottedText(s) {
      var arcs: seq<string> :| |arcs| >= 2 && (forall a :: a in arcs ==> Arc(a)) && s == Dots(arcs);
      ArcsAreLabels(arcs);
    }
  }

  lemma PolicyMeans(s: string)
    ensures PolicyOk(s) <==> PolicyText(s)
  {
    hide IsDotted, DottedText;
    DottedMeans(s);
    if s != "" {
      DottedMeans(s[..|s| - 1]);
    }
  }

  lemma {:induction false} PoliciesMean(items: seq<Json.Value>, n: nat)
    requires n <= |items|
    ensures PoliciesError(items, n) == None <==>
              forall i :: 0 <= i < n ==> items[i].Str? && PolicyText(items[i].text)
  {
    hide PolicyOk, PolicyText;
    PoliciesErrorMeans(items, n);
    forall i | 0 <= i < n && items[i].Str? ensures PolicyOk(items[i].text) <==> PolicyText(items[i].text) {
      PolicyMeans(items[i].text);
    }
  }

  /** An input is accepted exactly when all its fields are as spelled out. */
  lemma AcceptedMeans(raw: Json.Value, texts: Texts)
    ensures RawError(raw, texts) == None <==> Acceptable(raw, texts)
  {
    hide IsFingerprint, HexText, PolicyOk, PolicyText, PoliciesError;
    forall s ensures IsFingerprint(s) <==> HexText(s) {
      HexTextMeans(s);
    }
    if raw.Obj? && "initial_policy_set" in raw.fields && raw.fields["initial_policy_set"].Arr? {
      var items := raw.fields["initial_policy_set"].items;
      PoliciesMean(items, |items|);
    }
  }

  /** What counts as false in Python. */
  predicate Falsy(v: Json.Value) {
    v == Json.Null || v == Json.Bool(false) || v == Json.Int(0) || v == Json.Str("") || v == Json.Arr([])
    || v == Json.Obj(map[])
  }

  /** A wrong policy that is a text or counts as false is invalid; for any other value the pattern
      raises an exception. */
  lemma PolicyErrorMeans(v: Json.Value)
    ensures match PolicyError(v)
            case None => v.Str? && PolicyText(v.text)
            case Some(BadPolicy) => (v.Str? && !PolicyText(v.text)) || Falsy(v)
            case Some(PolicyNotText) => !v.Str? && !Falsy(v)
            case Some(_) => false
  {
    hide PolicyOk, PolicyText;
    if v.Str? {
      PolicyMeans(v.text);
    }
  }
}
