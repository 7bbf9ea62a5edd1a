/** Certificate policies along a path (app/pki.py, `evaluate_policies`).

    A path is listed leaf first; its last element is the trust anchor, whose
    extensions are ignored.  The Python value `None` for the valid set (the NULL
    policy tree) is `None` here too. */
module Policies {
  import opened Basics

  /** Object identifiers are compared as dotted texts. */
  type Dotted = string
  const ANY_POLICY_OID: Dotted := "2.5.29.32.0"

  datatype Policy = AnyPolicy | Named(oid: Dotted)

  datatype PolicyCert = PolicyCert(
    policies: Option<seq<Dotted>>,
    mappings: seq<(Dotted, Dotted)>,
    requireExplicit: Option<nat>,
    inhibitMapping: Option<nat>,
    inhibitAny: Option<nat>)

  datatype Constraint = RequireExplicit | InhibitMapping | InhibitAny

  datatype PolicyFault = MappingAny | TreeEmpty | ExplicitRequired | InitialSetMismatch

  /** A failure names the path position of the certificate it blames. */
  datatype PolicyResult = Pass(valid: set<Policy>) | Fail(fault: PolicyFault, position: nat)

  // ----- Skip counters --------------------------------------------------

  function SkipValue(c: PolicyCert, kind: Constraint): Option<nat> {
    match kind
    case RequireExplicit => c.requireExplicit
    case InhibitMapping => c.inhibitMapping
    case InhibitAny => c.inhibitAny
  }

  /** The least of the values `k - (p - idx)` over the certificates in `(idx, hi)`. */
  ghost function Pending(path: seq<PolicyCert>, kind: Constraint, idx: nat, hi: nat): Option<int>
    requires hi <= |path|
    decreases hi
  {
    if hi <= idx + 1 then None
    else Lower(Pending(path, kind, idx, hi - 1), Shifted(SkipValue(path[hi - 1], kind), hi - 1 - idx))
  }

  function Shifted(k: Option<int>, d: int): Option<int> {
    match k case None => None case Some(v) => Some(v - d)
  }

  function Lower(a: Option<int>, b: Option<int>): Option<int> {
    match (a, b)
    case (None, _) => b
    case (_, None) => a
    case (Some(x), Some(y)) => Some(if y < x then y else x)
  }

  /** Python's `(x or 1) > 0`: an absent value and zero both count as 1. */
  predicate OrOnePositive(x: Option<int>) {
    match x case None => true case Some(v) => (if v == 0 then 1 else v) > 0
  }

  /** The one-pass counter of RFC 5280 section 6.1.4 (h)-(j) in which every
      certificate counts: decrement towards zero, then take the lower value. */
  ghost function Counter(path: seq<PolicyCert>, kind: Constraint, idx: nat): Option<nat>
    requires |path| > 0
    decreases |path| - idx
  {
    if idx + 1 >= |path| - 1 then None
    else
      var above := Counter(path, kind, idx + 1);
      var ticked := match above case None => None case Some(v) => Some(if v == 0 then 0 else v - 1);
      match (ticked, SkipValue(path[idx + 1], kind))
      case (None, k) => k
      case (t, None) => t
      case (Some(t), Some(k)) => Some(if k < t then k else t)
  }

  ghost predicate InEffect(path: seq<PolicyCert>, kind: Constraint, idx: nat)
    requires |path| > 0
  {
    Counter(path, kind, idx) == Some(0)
  }

  lemma {:induction false} PendingShift(path: seq<PolicyCert>, kind: Constraint, idx: nat, hi: nat)
    requires idx + 2 <= hi <= |path|
    ensures Pending(path, kind, idx, hi) ==
            Lower(Shifted(Pending(path, kind, idx + 1, hi), 1), Shifted(SkipValue(path[idx + 1], kind), 1))
    decreases hi
  {
    if hi > idx + 2 {
      PendingShift(path, kind, idx, hi - 1);
    } else {
      assert Pending(path, kind, idx, idx + 1) == None;
      assert Pending(path, kind, idx + 1, hi) == None;
    }
  }

  /** The quadratic scan and the one-pass counter agree at every position. */
  lemma {:induction false} ScanIsCounter(path: seq<PolicyCert>, kind: Constraint, idx: nat)
    requires idx < |path|
    ensures var p := Pending(path, kind, idx, |path| - 1);
            match Counter(path, kind, idx)
            case None => p == None
            case Some(c) => p.Some? && if c == 0 then p.value < 0 else p.value == c - 1
    ensures OrOnePositive(Pending(path, kind, idx, |path| - 1)) <==> !InEffect(path, kind, idx)
    decreases |path| - idx
  {
    if idx + 1 < |path| - 1 {
      ScanIsCounter(path, kind, idx + 1);
      PendingShift(path, kind, idx, |path| - 1);
    }
  }

  /** Once in effect, a constraint stays in effect for every certificate below. */
  lemma {:induction false} EffectPersists(path: seq<PolicyCert>, kind: Constraint, idx: nat, below: nat)
    requires below <= idx < |path| && InEffect(path, kind, idx)
    ensures InEffect(path, kind, below)
    decreases idx - below
  {
    if below < idx {
      EffectPersists(path, kind, idx, below + 1);
    }
  }

  /** A skip value `k` at position `p` exempts exactly the `k` certificates below `p`:
      a constraint is in effect at `idx` just when some certificate above it asked for it
      and is more than its own skip value away. */
  lemma {:induction false} EffectMeansSkipsSpent(path: seq<PolicyCert>, kind: Constraint, idx: nat)
    requires idx < |path|
    ensures InEffect(path, kind, idx) <==>
            exists p :: idx < p < |path| - 1 && SkipValue(path[p], kind).Some?
                        && SkipValue(path[p], kind).value < p - idx
  {
    ScanIsCounter(path, kind, idx);
    PendingNegative(path, kind, idx, |path| - 1);
  }

  lemma {:induction false} PendingNegative(path: seq<PolicyCert>, kind: Constraint, idx: nat, hi: nat)
    requires hi <= |path|
    ensures Pending(path, kind, idx, hi).Some? && Pending(path, kind, idx, hi).value < 0 <==>
            exists p :: idx < p < hi && SkipValue(path[p], kind).Some?
                        && SkipValue(path[p], kind).value < p - idx
    decreases hi
  {
    if hi > idx + 1 {
      PendingNegative(path, kind, idx, hi - 1);
    }
  }

  /** `pending_at`: the scan over every non-anchor certificate above `idx`. */
  method PendingAt(path: seq<PolicyCert>, kind: Constraint, idx: nat) returns (best: Option<int>)
    requires |path| > 0
    ensures best == Pending(path, kind, idx, |path| - 1)
  {
    best := None;
    var p := idx + 1;
    while p < |path| - 1
      invariant idx + 1 <= p
      invariant p <= |path| - 1 || best == None == Pending(path, kind, idx, |path| - 1)
      invariant p <= |path| - 1 ==> best == Pending(path, kind, idx, p)
    {
      var k := SkipValue(path[p], kind);
      if k.Some? {
        var v := k.value - (p - idx);
        best := Some(match best case None => v case Some(b) => if v < b then v else b);
      }
      p := p + 1;
    }
  }

  // ----- Narrowing the valid set ------------------------------------------

  predicate NamesAny(m: (Dotted, Dotted)) {
    m.0 == ANY_POLICY_OID || m.1 == ANY_POLICY_OID
  }

  /** The mappings of the issuer that apply to the certificate at `idx`. */
  function ParentMappings(path: seq<PolicyCert>, idx: nat): seq<(Dotted, Dotted)>
    requires idx < |path|
  {
    if idx + 1 <= |path| - 2 then path[idx + 1].mappings else []
  }

  ghost predicate MappingFault(path: seq<PolicyCert>, idx: nat)
    requires idx < |path|
  {
    !InEffect(path, InhibitMapping, idx) && exists m :: m in ParentMappings(path, idx) && NamesAny(m)
  }

  predicate NamedBy(c: PolicyCert, p: Dotted) {
    c.policies.Some? && p in c.policies.value && p != ANY_POLICY_OID
  }

  /** `p` is listed by the certificate at `idx`, or its issuer maps it to one that is. */
  ghost predicate Lists(path: seq<PolicyCert>, idx: nat, p: Dotted)
    requires idx < |path|
  {
    NamedBy(path[idx], p)
    || (!InEffect(path, InhibitMapping, idx)
        && exists sp :: (p, sp) in ParentMappings(path, idx) && NamedBy(path[idx], sp))
  }

  ghost predicate AcceptsAny(path: seq<PolicyCert>, idx: nat)
    requires idx < |path|
  {
    !InEffect(path, InhibitAny, idx)
    && path[idx].policies.Some? && ANY_POLICY_OID in path[idx].policies.value
  }

  /** The certificate at `idx` allows policy `p`. */
  ghost predicate Asserts(path: seq<PolicyCert>, idx: nat, p: Dotted)
    requires idx < |path|
  {
    AcceptsAny(path, idx) || Lists(path, idx, p)
  }

  /** The policies the certificate at `idx` puts forward by name. */
  ghost function Listed(path: seq<PolicyCert>, idx: nat): (r: set<Policy>)
    requires idx < |path|
    ensures forall p :: Named(p) in r <==> Lists(path, idx, p)
    ensures AnyPolicy !in r
  {
    var own := set p | p in path[idx].policies.GetOr([]) && p != ANY_POLICY_OID :: Named(p);
    var mapped := set m | m in ParentMappings(path, idx) && NamedBy(path[idx], m.1) :: Named(m.0);
    if InEffect(path, InhibitMapping, idx) then own
    else
      assert forall p, sp :: (p, sp) in ParentMappings(path, idx) && NamedBy(path[idx], sp) ==> Named(p) in mapped;
      own + mapped
  }

  ghost predicate Holds(valid: Option<set<Policy>>, q: Policy) {
    valid.Some? && q in valid.value
  }

  /** What one certificate makes of the valid set handed down to it. */
  ghost function Narrow(path: seq<PolicyCert>, idx: nat, before: Option<set<Policy>>): Option<set<Policy>>
    requires idx < |path|
  {
    if before == None || path[idx].policies == None then None
    else
      var open := AnyPolicy in before.value;
      var kept := if !AcceptsAny(path, idx) then {} else if open then {AnyPolicy} else before.value;
      var after := kept + (set q | q in Listed(path, idx) && (open || q in before.value));
      if after == {} then None else Some(after)
  }

  /** The valid set after the certificate at `idx`, coming down from the anchor. */
  ghost function ValidAt(path: seq<PolicyCert>, idx: nat): Option<set<Policy>>
    decreases |path| - idx
  {
    if idx + 1 >= |path| then Some({AnyPolicy}) else Narrow(path, idx, ValidAt(path, idx + 1))
  }

  /** The set of policies a valid set stands for: AnyPolicy stands for all of them. */
  ghost predicate Denotes(valid: Option<set<Policy>>, p: Dotted) {
    Holds(valid, AnyPolicy) || Holds(valid, Named(p))
  }

  /** One certificate keeps, of the policies denoted above it, those it asserts. */
  lemma NarrowDenotes(path: seq<PolicyCert>, idx: nat, before: Option<set<Policy>>, p: Dotted)
    requires idx < |path|
    ensures var after := Narrow(path, idx, before);
            && (Denotes(after, p) <==> Denotes(before, p) && Asserts(path, idx, p))
            && (Holds(after, AnyPolicy) <==> Holds(before, AnyPolicy) && AcceptsAny(path, idx))
            && (before == None ==> after == None)
  {
    if before.Some? && path[idx].policies.Some? {
      var open := AnyPolicy in before.value;
      var listed := set q | q in Listed(path, idx) && (open || q in before.value);
      assert Named(p) in listed <==> Lists(path, idx, p) && (open || Named(p) in before.value);
    }
  }

  /** The denoted set at a position is the intersection of what every certificate
      from the anchor down to it asserts; it is open to all just when each accepts anyPolicy. */
  lemma {:induction false} ValidIsIntersection(path: seq<PolicyCert>, idx: nat, p: Dotted)
    requires idx < |path|
    ensures Denotes(ValidAt(path, idx), p) <==> forall j :: idx <= j < |path| - 1 ==> Asserts(path, j, p)
    ensures Holds(ValidAt(path, idx), AnyPolicy) <==> forall j :: idx <= j < |path| - 1 ==> AcceptsAny(path, j)
    decreases |path| - idx
  {
    hide Narrow, Asserts, AcceptsAny;
    if idx + 1 < |path| {
      ValidIsIntersection(path, idx + 1, p);
      NarrowDenotes(path, idx, ValidAt(path, idx + 1), p);
    }
  }

  /** From anchor to leaf the denoted set only shrinks, and the NULL tree and the loss of
      anyPolicy are permanent. */
  lemma {:induction false} NarrowingIsPermanent(path: seq<PolicyCert>, idx: nat, below: nat, p: Dotted)
    requires below <= idx < |path|
    ensures Denotes(ValidAt(path, below), p) ==> Denotes(ValidAt(path, idx), p)
    ensures !Holds(ValidAt(path, idx), AnyPolicy) ==> !Holds(ValidAt(path, below), AnyPolicy)
    ensures ValidAt(path, idx) == None ==> ValidAt(path, below) == None
    decreases idx - below
  {
    hide Narrow, Asserts, AcceptsAny;
    if below < idx {
      NarrowDenotes(path, below, ValidAt(path, below + 1), p);
      NarrowingIsPermanent(path, idx, below + 1, p);
    }
  }

  // ----- The verdict -------------------------------------------------------

  predicate Specific(initial: set<Policy>) {
    initial != {} && AnyPolicy !in initial && Named(ANY_POLICY_OID) !in initial
  }

  /** When a path passes: no mapping in force names anyPolicy, a named policy is left if
      an explicit one is required at the leaf, and a specific initial set meets what is left. */
  ghost predicate PathPasses(path: seq<PolicyCert>, initial: set<Policy>)
    requires |path| > 0
  {
    (forall i :: 0 <= i < |path| - 1 ==> !MappingFault(path, i))
    && (InEffect(path, RequireExplicit, 0) ==> exists p :: Holds(ValidAt(path, 0), Named(p)))
    && (Specific(initial) ==>
          exists q :: q in initial && (Holds(ValidAt(path, 0), AnyPolicy) || Holds(ValidAt(path, 0), q)))
  }

  /** A path of two certificates that say nothing of policies. */
  const BARE_PATH := [PolicyCert(None, [], None, None, None), PolicyCert(None, [], None, None, None)]

  lemma BarePathPasses(initial: set<Policy>)
    ensures PathPasses(BARE_PATH, initial) <==> !Specific(initial)
  {
    assert ParentMappings(BARE_PATH, 0) == [];
    assert Counter(BARE_PATH, RequireExplicit, 0) == None;
    assert ValidAt(BARE_PATH, 0) == None;
  }

  /** Enlarging the initial policy set never turns a pass into a failure, on any path, exactly when
      the smaller set is not empty or the larger one is not specific: the empty set counts as
      anyPolicy, so a specific set asks for more. */
  lemma EnlargingKeepsPass(small: set<Policy>, large: set<Policy>)
    requires small <= large
    ensures (forall path :: |path| > 0 && PathPasses(path, small) ==> PathPasses(path, large))
            <==> small != {} || !Specific(large)
  {
    BarePathPasses(small);
    BarePathPasses(large);
    if small != {} && Specific(large) {
      assert Specific(small);
    }
  }

  /** The last part of `evaluate_policies`: acceptance of the leaf's valid set. */
  function Conclude(valid: Option<set<Policy>>, explicitRequired: bool, initialPolicySet: set<Policy>): PolicyResult {
    var initial := if initialPolicySet == {} then {AnyPolicy} else initialPolicySet;
    var specific := AnyPolicy !in initial && Named(ANY_POLICY_OID) !in initial;
    if valid == None then
      if explicitRequired then Fail(TreeEmpty, 0)
      else if specific then Fail(InitialSetMismatch, 0)
      else Pass({})
    else if valid.value == {AnyPolicy} then
      if explicitRequired then Fail(ExplicitRequired, 0)
      else Pass(if specific then initial else {AnyPolicy})
    else if specific then
      if AnyPolicy in valid.value then Pass(initial)
      else
        var inter := valid.value * initial;
        if inter == {} then Fail(InitialSetMismatch, 0) else Pass(inter)
    else Pass(valid.value)
  }

  /** The lowest position at or above `idx` where a mapping fault is met coming down, if any:
      the highest fault of the path. */
  ghost function FaultAbove(path: seq<PolicyCert>, idx: nat): Option<nat>
    decreases |path| - idx
  {
    if idx + 1 >= |path| then None
    else
      var above := FaultAbove(path, idx + 1);
      if above.Some? then above else if MappingFault(path, idx) then Some(idx) else None
  }

  /** The result of `evaluate_policies`; a mapping that names anyPolicy is blamed on the
      issuer that carries it. */
  ghost function PolicyVerdict(path: seq<PolicyCert>, initial: set<Policy>): PolicyResult
    requires |path| > 0
  {
    match FaultAbove(path, 0)
    case Some(i) => Fail(MappingAny, i + 1)
    case None => Conclude(ValidAt(path, 0), InEffect(path, RequireExplicit, 0), initial)
  }

  lemma {:induction false} FaultAboveMeans(path: seq<PolicyCert>, idx: nat)
    ensures match FaultAbove(path, idx)
            case None => forall i :: idx <= i < |path| - 1 ==> !MappingFault(path, i)
            case Some(i) => idx <= i < |path| - 2 && MappingFault(path, i)
                            && forall j :: i < j < |path| - 1 ==> !MappingFault(path, j)
    decreases |path| - idx
  {
    if idx + 1 < |path| {
      FaultAboveMeans(path, idx + 1);
    }
  }

  /** A path passes exactly when `PathPasses`; a mapping fault blames the highest issuer
      at fault, which lies below the anchor. */
  lemma VerdictMeans(path: seq<PolicyCert>, initial: set<Policy>)
    requires |path| > 0
    ensures PolicyVerdict(path, initial).Pass? <==> PathPasses(path, initial)
    ensures PolicyVerdict(path, initial).Fail? ==> PolicyVerdict(path, initial).position < |path|
  {
    FaultAboveMeans(path, 0);
    ValidIsNotEmpty(path, 0);
    ConcludeMeaning(ValidAt(path, 0), InEffect(path, RequireExplicit, 0), initial);
  }

  lemma ValidIsNotEmpty(path: seq<PolicyCert>, idx: nat)
    ensures ValidAt(path, idx).Some? ==> ValidAt(path, idx).value != {}
  {
  }

  lemma ConcludeMeaning(valid: Option<set<Policy>>, explicitRequired: bool, initial: set<Policy>)
    requires valid.Some? ==> valid.value != {}
    ensures Conclude(valid, explicitRequired, initial).Pass? <==>
              (explicitRequired ==> exists p :: Holds(valid, Named(p)))
              && (Specific(initial) ==> exists q :: q in initial && (Holds(valid, AnyPolicy) || Holds(valid, q)))
  {
    if valid.Some? && valid.value != {AnyPolicy} {
      assert !(valid.value <= {AnyPolicy});
      var q :| q in valid.value && q !in {AnyPolicy};
      assert Holds(valid, Named(q.oid));
    }
    if Specific(initial) {
      var w :| w in initial;
      if valid.Some? {
        assert forall q :: q in valid.value * initial <==> Holds(valid, q) && q in initial;
      }
    }
  }

  // ----- The loops ---------------------------------------------------------

  /** The mappings of one issuer, gathered by subject policy. */
  method CollectMappings(mappings: seq<(Dotted, Dotted)>) returns (fault: bool, mapped: map<Dotted, seq<Dotted>>)
    ensures fault <==> exists m :: m in mappings && NamesAny(m)
    ensures !fault ==> forall ip, sp :: (sp in mapped && ip in mapped[sp]) <==> (ip, sp) in mappings
  {
    mapped := map[];
    for i := 0 to |mappings|
      invariant forall m :: m in mappings[..i] ==> !NamesAny(m)
      invariant forall ip, sp :: (sp in mapped && ip in mapped[sp]) <==> (ip, sp) in mappings[..i]
    {
      var (ip, sp) := mappings[i];
      if NamesAny((ip, sp)) {
        return true, map[];
      }
      assert mappings[..i + 1] == mappings[..i] + [(ip, sp)];
      mapped := mapped[sp := (if sp in mapped then mapped[sp] else []) + [ip]];
    }
    assert mappings[..|mappings|] == mappings;
    fault := false;
  }

  predicate Reached(oids: seq<Dotted>, mapped: map<Dotted, seq<Dotted>>, q: Dotted) {
    exists p :: p in oids && p != ANY_POLICY_OID && (p == q || (p in mapped && q in mapped[p]))
  }

  lemma ReachedOneMore(oids: seq<Dotted>, p: Dotted, mapped: map<Dotted, seq<Dotted>>)
    ensures forall q :: Reached(oids + [p], mapped, q) <==>
              Reached(oids, mapped, q) || (p != ANY_POLICY_OID && (p == q || (p in mapped && q in mapped[p])))
  {
    assert forall x :: x in oids + [p] <==> x in oids || x == p;
    forall q | Reached(oids, mapped, q) ensures Reached(oids + [p], mapped, q) {
      var w :| w in oids && w != ANY_POLICY_OID && (w == q || (w in mapped && q in mapped[w]));
      assert w in oids + [p];
    }
    assert p in oids + [p];
  }

  /** The body of the main loop once mappings are known: the certificate's policies and the
      policies mapped to them, each kept only if the set handed down is open or has it. */
  method NarrowSet(oids: seq<Dotted>, mapped: map<Dotted, seq<Dotted>>, anyAllowed: bool, valid: set<Policy>)
    returns (after: set<Policy>)
    ensures forall q :: q in after <==>
              (ANY_POLICY_OID in oids && anyAllowed && (if AnyPolicy in valid then q == AnyPolicy else q in valid))
              || (q.Named? && Reached(oids, mapped, q.oid) && (AnyPolicy in valid || q in valid))
  {
    var hasAny := ANY_POLICY_OID in oids;
    var open := AnyPolicy in valid;
    var kept := if hasAny && anyAllowed then (if open then {AnyPolicy} else valid) else {};
    after := kept;
    for i := 0 to |oids|
      invariant forall q :: q in after <==>
                  q in kept || (q.Named? && Reached(oids[..i], mapped, q.oid) && (open || q in valid))
    {
      var p := oids[i];
      assert oids[..i + 1] == oids[..i] + [p];
      ReachedOneMore(oids[..i], p, mapped);
      if p != ANY_POLICY_OID {
        if open || Named(p) in valid {
          after := after + {Named(p)};
        }
        var ips := if p in mapped then mapped[p] else [];
        ghost var before := after;
        for k := 0 to |ips|
          invariant forall q :: q in after <==>
                      q in before || (q.Named? && q.oid in ips[..k] && (open || q in valid))
        {
          if open || Named(ips[k]) in valid {
            after := after + {Named(ips[k])};
          }
        }
        assert ips[..|ips|] == ips;
      }
    }
    assert oids[..|oids|] == oids;
  }

  /** One turn of the main loop. */
  method PassCertificate(path: seq<PolicyCert>, idx: nat, before: Option<set<Policy>>)
    returns (fault: bool, after: Option<set<Policy>>)
    requires idx < |path|
    ensures fault <==> MappingFault(path, idx)
    ensures !fault ==> after == Narrow(path, idx, before)
  {
    hide ParentMappings, Reached, NamesAny, Lists, NamedBy;
    var mappingPending := PendingAt(path, InhibitMapping, idx);
    var anyPending := PendingAt(path, InhibitAny, idx);
    ScanIsCounter(path, InhibitMapping, idx);
    ScanIsCounter(path, InhibitAny, idx);
    after := before;
    fault := false;
    var mapped := map[];
    if OrOnePositive(mappingPending) {
      fault, mapped := CollectMappings(ParentMappings(path, idx));
    }
    if !fault && before.Some? {
      if path[idx].policies == None {
        after := None;
      } else {
        var narrowed := NarrowSet(path[idx].policies.value, mapped, OrOnePositive(anyPending), before.value);
        NarrowSetMeaning(path, idx, mapped, before, narrowed);
        after := if narrowed == {} then None else Some(narrowed);
      }
    }
  }

  /** `evaluate_policies`. */
  method EvaluatePolicies(path: seq<PolicyCert>, initialPolicySet: set<Policy>) returns (result: PolicyResult)
    requires |path| > 0
    ensures result == PolicyVerdict(path, initialPolicySet)
  {
    hide MappingFault, Narrow, Conclude;
    var n := |path| - 1;
    var valid: Option<set<Policy>> := Some({AnyPolicy});
    var idx := n;
    while idx > 0
      invariant 0 <= idx <= n
      invariant valid == ValidAt(path, idx)
      invariant FaultAbove(path, idx) == None
    {
      idx := idx - 1;
      var fault;
      fault, valid := PassCertificate(path, idx, valid);
      if fault {
        FaultFound(path, idx);
        return Fail(MappingAny, idx + 1);
      }
    }
    var explicitPending := PendingAt(path, RequireExplicit, 0);
    ScanIsCounter(path, RequireExplicit, 0);
    result := Conclude(valid, !OrOnePositive(explicitPending), initialPolicySet);
  }

  lemma {:induction false} FaultFound(path: seq<PolicyCert>, idx: nat)
    requires idx + 1 < |path| && FaultAbove(path, idx).Some?
    ensures FaultAbove(path, 0) == FaultAbove(path, idx)
    decreases idx
  {
    if idx > 0 {
      FaultFound(path, idx - 1);
    }
  }

  lemma NarrowSetMeaning(path: seq<PolicyCert>, idx: nat, mapped: map<Dotted, seq<Dotted>>,
                         before: Option<set<Policy>>, after: set<Policy>)
    requires idx < |path| && before.Some? && path[idx].policies.Some?
    requires forall ip, sp :: (sp in mapped && ip in mapped[sp]) <==>
               (!InEffect(path, InhibitMapping, idx) && (ip, sp) in ParentMappings(path, idx))
    requires forall q :: q in after <==>
              (AcceptsAny(path, idx) && (if AnyPolicy in before.value then q == AnyPolicy else q in before.value))
              || (q.Named? && Reached(path[idx].policies.value, mapped, q.oid)
                  && (AnyPolicy in before.value || q in before.value))
    ensures Narrow(path, idx, before) == if after == {} then None else Some(after)
  {
    var oids := path[idx].policies.value;
    forall q ensures Reached(oids, mapped, q) <==> Lists(path, idx, q) {
      if Lists(path, idx, q) && !NamedBy(path[idx], q) {
        var sp :| (q, sp) in ParentMappings(path, idx) && NamedBy(path[idx], sp);
        assert sp in oids && sp != ANY_POLICY_OID && sp in mapped && q in mapped[sp];
      } else if NamedBy(path[idx], q) {
        assert q in oids && q != ANY_POLICY_OID;
      } else if Reached(oids, mapped, q) {
        var p :| p in oids && p != ANY_POLICY_OID && (p == q || (p in mapped && q in mapped[p]));
        assert (q, p) in ParentMappings(path, idx) && NamedBy(path[idx], p);
      }
    }
    var open := AnyPolicy in before.value;
    var kept := if !AcceptsAny(path, idx) then {} else if open then {AnyPolicy} else before.value;
    var spec := kept + (set q | q in Listed(path, idx) && (open || q in before.value));
    assert forall q :: q in spec <==> q in after;
    assert spec == after;
  }
}
