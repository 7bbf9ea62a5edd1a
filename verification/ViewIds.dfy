/** The ids of views as texts (app/revocation.py), and fingerprints as hexadecimal digits: the order
    in which the model compares ids is the order of these texts. */
module ViewIds {
  import opened Revocation
  import opened Inputs
  import Strings

  const HEX := "0123456789abcdef"

  /** A number in so many digits. */
  function Hex(n: nat, width: nat): (s: string)
    ensures |s| == width
  {
    if width == 0 then "" else [HEX[n / Pow16(width - 1) % 16]] + Hex(n % Pow16(width - 1), width - 1)
  }

  lemma HexDigits(d: nat)
    requires d < 16
    ensures IsHex(HEX[d]) && Digit(HEX[d]) == d
  {
    var hex := HEX;
    assert |hex| == 16;
  }

  /** The digits of a number read back. */
  lemma {:induction false} HexReads(n: nat, width: nat)
    requires n < Pow16(width)
    ensures AllHex(Hex(n, width)) && HexValue(Hex(n, width)) == n
  {
    if width > 0 {
      var p := Pow16(width - 1);
      LeadingDigit(n, p);
      HexReads(n % p, width - 1);
      HexDigits(n / p);
      assert Hex(n, width)[1..] == Hex(n % p, width - 1);
    }
  }

  lemma LeadingDigit(n: nat, p: nat)
    requires p > 0 && n < 16 * p
    ensures n / p < 16 && n / p % 16 == n / p && n == n / p * p + n % p
  {
    assert n / p < 16;
  }

  /** Every number below 16^64 is the number of one fingerprint text. */
  lemma FingerprintsCoverNumbers(n: nat)
    requires n < Pow16(64)
    ensures IsFingerprint(Hex(n, 64)) && FpOf(Hex(n, 64)) == n
  {
    HexReads(n, 64);
  }

  // ----- Ids as texts ------------------------------------------------------------------------

  function TextOfId(id: ViewId): string {
    match id
    case CrlId(fp) => "crl:" + Hex(fp, 64)
    case PairId(base, delta) => "crl:" + Hex(base, 64) + "+" + Hex(delta, 64)
    case OcspId(fp) => "ocsp:" + Hex(fp, 64)
  }

  predicate Short(id: ViewId) {
    match id
    case CrlId(fp) => fp < Pow16(64)
    case PairId(base, delta) => base < Pow16(64) && delta < Pow16(64)
    case OcspId(fp) => fp < Pow16(64)
  }

  lemma {:induction false} SameFront(a: string, x: string, y: string)
    ensures Strings.Less(a + x, a + y) <==> Strings.Less(x, y)
  {
    if a == "" {
      assert a + x == x && a + y == y;
    } else {
      assert (a + x)[1..] == a[1..] + x && (a + y)[1..] == a[1..] + y;
      SameFront(a[1..], x, y);
    }
  }

  /** Texts of one length are compared first, and what follows them only if they are equal. */
  lemma {:induction false} FrontFirst(a: string, b: string, x: string, y: string)
    requires |a| == |b|
    ensures Strings.Less(a + x, b + y) <==> Strings.Less(a, b) || (a == b && Strings.Less(x, y))
  {
    if a == "" {
      assert a + x == x && b + y == y;
    } else {
      assert (a + x)[1..] == a[1..] + x && (b + y)[1..] == b[1..] + y;
      FrontFirst(a[1..], b[1..], x, y);
      assert a == b <==> a[0] == b[0] && a[1..] == b[1..];
    }
  }

  lemma HexCompared(m: nat, n: nat)
    requires m < Pow16(64) && n < Pow16(64)
    ensures Strings.Less(Hex(m, 64), Hex(n, 64)) <==> m < n
    ensures Hex(m, 64) == Hex(n, 64) <==> m == n
  {
    HexReads(m, 64);
    HexReads(n, 64);
    HexOrder(Hex(m, 64), Hex(n, 64));
  }

  /** The fingerprint and what follows it, after the kind. */
  lemma RestsCompared(m: nat, n: nat, x: string, y: string)
    requires m < Pow16(64) && n < Pow16(64)
    ensures Strings.Less(Hex(m, 64) + x, Hex(n, 64) + y) <==> m < n || (m == n && Strings.Less(x, y))
  {
    HexCompared(m, n);
    FrontFirst(Hex(m, 64), Hex(n, 64), x, y);
  }

  /** What follows the fingerprint in the id of a CRL or of a pair. */
  function Tail(id: ViewId): string {
    if id.PairId? then "+" + Hex(id.delta, 64) else ""
  }

  function Head(id: ViewId): nat {
    match id
    case CrlId(fp) => fp
    case PairId(base, _) => base
    case OcspId(fp) => fp
  }

  lemma TextParts(id: ViewId)
    ensures TextOfId(id) == (if id.OcspId? then "ocsp:" else "crl:") + (Hex(Head(id), 64) + Tail(id))
  {
    if id.PairId? {
      var base, delta := Hex(id.base, 64), Hex(id.delta, 64);
      assert "crl:" + base + "+" + delta == "crl:" + (base + ("+" + delta));
    }
  }

  lemma TailsCompared(a: ViewId, b: ViewId)
    requires Short(a) && Short(b)
    ensures Strings.Less(Tail(a), Tail(b)) <==> b.PairId? && (a.PairId? ==> a.delta < b.delta)
  {
    if a.PairId? && b.PairId? {
      HexCompared(a.delta, b.delta);
      SameFront("+", Hex(a.delta, 64), Hex(b.delta, 64));
    }
  }

  /** Ids are compared as the texts they stand for. */
  lemma IdsCompareAsTexts(a: ViewId, b: ViewId)
    requires Short(a) && Short(b)
    ensures IdLess(a, b) <==> Strings.Less(TextOfId(a), TextOfId(b))
  {
    hide Hex, Pow16;
    TextParts(a);
    TextParts(b);
    TailsCompared(a, b);
    var x, y := Hex(Head(a), 64) + Tail(a), Hex(Head(b), 64) + Tail(b);
    RestsCompared(Head(a), Head(b), Tail(a), Tail(b));
    if a.OcspId? == b.OcspId? {
      SameFront(if a.OcspId? then "ocsp:" else "crl:", x, y);
    } else {
      assert TextOfId(a)[0] == (if a.OcspId? then 'o' else 'c');
      assert TextOfId(b)[0] == (if b.OcspId? then 'o' else 'c');
    }
  }
}
