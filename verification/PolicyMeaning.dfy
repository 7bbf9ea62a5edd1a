/** What `evaluate_policies` answers, read off the fields of the certificates: the independent
    reading of the counters and sets that the loops pass down. */
module PolicyMeaning {
  import opened Basics
  import opened Policies

  // ----- Constraints ---------------------------------------------------------------------

  /** A certificate so far up has asked, and its skip value does not reach down here. */
  predicate Binds(skip: Option<nat>, distance: int) {
    skip.Some? && skip.value < distance
  }

  /** An explicit policy is needed at the leaf. */
  ghost predicate ExplicitNeeded(path: seq<PolicyCert>) {
    exists p :: 0 < p < |path| - 1 && Binds(path[p].requireExplicit, p)
  }

  ghost predicate MappingOff(path: seq<PolicyCert>, i: nat) {
    exists p :: i < p < |path| - 1 && Binds(path[p].inhibitMapping, p - i)
  }

  ghost predicate AnyOff(path: seq<PolicyCert>, i: nat) {
    exists p :: i < p < |path| - 1 && Binds(path[p].inhibitAny, p - i)
  }

  // ----- What one certificate asserts ------------------------------------------------------

  /** The issuer of certificate `i`, if it is not the anchor, maps `sp` to its own `ip`. */
  predicate Maps(path: seq<PolicyCert>, i: nat, ip: string, sp: string) {
    i + 1 < |path| - 1 && (ip, sp) in path[i + 1].mappings
  }

  /** A mapping in force from or to the identifier of anyPolicy. */
  ghost predicate MapsAny(path: seq<PolicyCert>, i: nat) {
    !MappingOff(path, i) && exists ip, sp :: Maps(path, i, ip, sp) && (ip == "2.5.29.32.0" || sp == "2.5.29.32.0")
  }

  predicate HasPolicy(c: PolicyCert, p: string) {
    c.policies.Some? && p in c.policies.value
  }

  /** The certificate has the policy, or a policy that its issuer maps to it. */
  ghost predicate Names(path: seq<PolicyCert>, i: nat, p: string)
    requires i < |path|
  {
    (HasPolicy(path[i], p) && p != "2.5.29.32.0")
    || (!MappingOff(path, i)
        && exists sp :: Maps(path, i, p, sp) && HasPolicy(path[i], sp) && sp != "2.5.29.32.0")
  }

  /** The certificate has anyPolicy, and that counts. */
  ghost predicate Opens(path: seq<PolicyCert>, i: nat)
    requires i < |path|
  {
    HasPolicy(path[i], "2.5.29.32.0") && !AnyOff(path, i)
  }

  // ----- What the path asserts ---------------------------------------------------------------

  ghost predicate AllOpen(path: seq<PolicyCert>) {
    forall i :: 0 <= i < |path| - 1 ==> Opens(path, i)
  }

  /** The policies left by name: those every certificate allows, but where all are open, those that
      the leaf names. */
  ghost predicate Left(path: seq<PolicyCert>, p: string) {
    if AllOpen(path) then |path| > 1 && Names(path, 0, p)
    else forall i :: 0 <= i < |path| - 1 ==> Opens(path, i) || Names(path, i, p)
  }

  /** The initial set asks for policies by name. */
  predicate Choosy(initial: set<Policy>) {
    initial != {} && AnyPolicy !in initial && Named("2.5.29.32.0") !in initial
  }

  ghost predicate Wanted(path: seq<PolicyCert>, initial: set<Policy>) {
    exists p :: Named(p) in initial && Left(path, p)
  }

  /** When the policies of a path are in order. */
  ghost predicate PoliciesInOrder(path: seq<PolicyCert>, initial: set<Policy>) {
    (forall i :: 0 <= i < |path| - 1 ==> !MapsAny(path, i))
    && (ExplicitNeeded(path) ==> exists p :: Left(path, p))
    && (Choosy(initial) ==> AllOpen(path) || Wanted(path, initial))
  }

  // ----- The readings agree --------------------------------------------------------------------

  lemma EffectsMean(path: seq<PolicyCert>, i: nat)
    requires i < |path|
    ensures InEffect(path, RequireExplicit, 0) <==> ExplicitNeeded(path)
    ensures InEffect(path, InhibitMapping, i) <==> MappingOff(path, i)
    ensures InEffect(path, InhibitAny, i) <==> AnyOff(path, i)
  {
    hide InEffect;
    EffectMeansSkipsSpent(path, RequireExplicit, 0);
    EffectMeansSkipsSpent(path, InhibitMapping, i);
    EffectMeansSkipsSpent(path, InhibitAny, i);
    ExplicitMeans(path);
    MappingOffMeans(path, i);
    AnyOffMeans(path, i);
  }

  lemma ExplicitMeans(path: seq<PolicyCert>)
    ensures ExplicitNeeded(path) <==>
              exists p :: 0 < p < |path| - 1 && SkipValue(path[p], RequireExplicit).Some?
                          && SkipValue(path[p], RequireExplicit).value < p - 0
  {
    forall p | 0 < p < |path| - 1
      ensures Binds(path[p].requireExplicit, p) <==>
                SkipValue(path[p], RequireExplicit).Some? && SkipValue(path[p], RequireExplicit).value < p - 0
    {
    }
  }

  lemma MappingOffMeans(path: seq<PolicyCert>, i: nat)
    ensures MappingOff(path, i) <==>
              exists p :: i < p < |path| - 1 && SkipValue(path[p], InhibitMapping).Some?
                          && SkipValue(path[p], InhibitMapping).value < p - i
  {
    forall p | i < p < |path| - 1
      ensures Binds(path[p].inhibitMapping, p - i) <==>
                SkipValue(path[p], InhibitMapping).Some? && SkipValue(path[p], InhibitMapping).value < p - i
    {
    }
  }

  lemma AnyOffMeans(path: seq<PolicyCert>, i: nat)
    ensures AnyOff(path, i) <==>
              exists p :: i < p < |path| - 1 && SkipValue(path[p], InhibitAny).Some?
                          && SkipValue(path[p], InhibitAny).value < p - i
  {
    forall p | i < p < |path| - 1
      ensures Binds(path[p].inhibitAny, p - i) <==>
                SkipValue(path[p], InhibitAny).Some? && SkipValue(path[p], InhibitAny).value < p - i
    {
    }
  }

  lemma AssertsMean(path: seq<PolicyCert>, i: nat, p: string)
    requires i < |path|
    ensures AcceptsAny(path, i) <==> Opens(path, i)
    ensures Lists(path, i, p) <==> Names(path, i, p)
  {
    hide InEffect, MappingOff, AnyOff;
    EffectsMean(path, i);
    if exists sp :: Maps(path, i, p, sp) && HasPolicy(path[i], sp) && sp != "2.5.29.32.0" {
      var sp :| Maps(path, i, p, sp) && HasPolicy(path[i], sp) && sp != "2.5.29.32.0";
      assert (p, sp) in ParentMappings(path, i) && NamedBy(path[i], sp);
    }
    if exists sp :: (p, sp) in ParentMappings(path, i) && NamedBy(path[i], sp) {
      var sp :| (p, sp) in ParentMappings(path, i) && NamedBy(path[i], sp);
      assert Maps(path, i, p, sp) && HasPolicy(path[i], sp);
    }
  }

  lemma FaultsMean(path: seq<PolicyCert>, i: nat)
    requires i < |path|
    ensures MappingFault(path, i) <==> MapsAny(path, i)
  {
    hide InEffect, MappingOff;
    EffectsMean(path, i);
    if exists m :: m in ParentMappings(path, i) && NamesAny(m) {
      var m :| m in ParentMappings(path, i) && NamesAny(m);
      assert Maps(path, i, m.0, m.1);
    }
    if exists ip, sp :: Maps(path, i, ip, sp) && (ip == "2.5.29.32.0" || sp == "2.5.29.32.0") {
      var ip, sp :| Maps(path, i, ip, sp) && (ip == "2.5.29.32.0" || sp == "2.5.29.32.0");
      assert (ip, sp) in ParentMappings(path, i) && NamesAny((ip, sp));
    }
  }

  /** What the valid set at the leaf holds. */
  lemma LeftMeans(path: seq<PolicyCert>, p: string)
    requires |path| > 0
    ensures Holds(ValidAt(path, 0), AnyPolicy) <==> AllOpen(path)
    ensures Holds(ValidAt(path, 0), Named(p)) <==> Left(path, p)
  {
    hide Narrow, AcceptsAny, Lists, Opens, Names;
    forall i | 0 <= i < |path|
      ensures AcceptsAny(path, i) <==> Opens(path, i)
      ensures Asserts(path, i, p) <==> Opens(path, i) || Names(path, i, p)
    {
      AssertsMean(path, i, p);
    }
    ValidIsIntersection(path, 0, p);
    AssertsMean(path, 0, p);
    if AllOpen(path) && |path| > 1 {
      ValidIsIntersection(path, 1, p);
      NarrowOpen(path, 0, ValidAt(path, 1), p);
    }
  }

  /** A certificate that keeps an open set open leaves of the names only those it lists. */
  lemma NarrowOpen(path: seq<PolicyCert>, i: nat, before: Option<set<Policy>>, p: string)
    requires i < |path| && Holds(before, AnyPolicy) && AcceptsAny(path, i)
    ensures Holds(Narrow(path, i, before), Named(p)) <==> Lists(path, i, p)
  {
    hide Lists;
    assert Named(p) in Listed(path, i) <==> Lists(path, i, p);
  }

  lemma ValidMeans(path: seq<PolicyCert>)
    requires |path| > 0
    ensures Holds(ValidAt(path, 0), AnyPolicy) <==> AllOpen(path)
    ensures forall p :: Holds(ValidAt(path, 0), Named(p)) <==> Left(path, p)
    ensures ValidAt(path, 0) == None <==> !AllOpen(path) && forall p :: !Left(path, p)
  {
    hide ValidAt, AllOpen, Left;
    forall p ensures Holds(ValidAt(path, 0), Named(p)) <==> Left(path, p) {
      LeftMeans(path, p);
    }
    LeftMeans(path, "");
    ValidIsNotEmpty(path, 0);
    if ValidAt(path, 0).Some? {
      var q :| q in ValidAt(path, 0).value;
      assert q == AnyPolicy || Holds(ValidAt(path, 0), Named(q.oid));
    }
  }

  lemma NoFaults(path: seq<PolicyCert>)
    ensures (forall i :: 0 <= i < |path| - 1 ==> !MappingFault(path, i)) <==>
            (forall i :: 0 <= i < |path| - 1 ==> !MapsAny(path, i))
  {
    hide MappingFault, MapsAny;
    forall i | 0 <= i < |path| - 1 ensures MappingFault(path, i) <==> MapsAny(path, i) {
      FaultsMean(path, i);
    }
  }

  /** Why a path fails, and where: a mapping in force that touches anyPolicy is blamed on the
      highest issuer that has one; the other faults are told apart by what is left at the leaf. */
  ghost predicate FailsFor(path: seq<PolicyCert>, initial: set<Policy>, fault: PolicyFault, k: nat) {
    if fault == MappingAny then
      0 < k < |path| && MapsAny(path, k - 1) && forall j :: k <= j < |path| - 1 ==> !MapsAny(path, j)
    else
      && k == 0 && (forall i :: 0 <= i < |path| - 1 ==> !MapsAny(path, i))
      && (if fault == InitialSetMismatch then
            Choosy(initial) && !AllOpen(path) && !Wanted(path, initial)
            && (ExplicitNeeded(path) ==> exists p :: Left(path, p))
          else
            ExplicitNeeded(path) && (forall p :: !Left(path, p)) && (fault == TreeEmpty <==> !AllOpen(path)))
  }

  /** A pass reports this policy. */
  ghost predicate Reported(path: seq<PolicyCert>, initial: set<Policy>, q: Policy) {
    if Choosy(initial) then q in initial && (AllOpen(path) || (q.Named? && Left(path, q.oid)))
    else if q == AnyPolicy then AllOpen(path) else Left(path, q.oid)
  }

  /** The result in full. A pass reports what is left, cut down to the initial set if that asks for
      policies by name. */
  lemma VerdictInFull(path: seq<PolicyCert>, initial: set<Policy>)
    requires |path| > 0
    ensures match PolicyVerdict(path, initial)
            case Fail(fault, k) => FailsFor(path, initial, fault, k)
            case Pass(valid) =>
              && PoliciesInOrder(path, initial)
              && forall q :: q in valid <==> Reported(path, initial, q)
  {
    hide MappingFault, MapsAny, ValidAt, AllOpen, Left, InEffect, ExplicitNeeded, FaultAbove, Conclude;
    FaultAboveMeans(path, 0);
    forall i | 0 <= i < |path| - 1 ensures MappingFault(path, i) <==> MapsAny(path, i) {
      FaultsMean(path, i);
    }
    ValidMeans(path);
    EffectsMean(path, 0);
    ConcludeInFull(ValidAt(path, 0), InEffect(path, RequireExplicit, 0), initial);
  }

  /** The last part of the evaluation, by what the valid set holds. */
  lemma ConcludeInFull(valid: Option<set<Policy>>, explicit: bool, initial: set<Policy>)
    requires valid.Some? ==> valid.value != {}
    ensures match Conclude(valid, explicit, initial)
            case Fail(fault, k) =>
              k == 0 && fault != MappingAny
              && (if fault == InitialSetMismatch then
                    Choosy(initial) && !Holds(valid, AnyPolicy)
                    && (forall p :: Named(p) in initial ==> !Holds(valid, Named(p)))
                    && (explicit ==> exists p :: Holds(valid, Named(p)))
                  else
                    explicit && (forall p :: !Holds(valid, Named(p))) && (fault == TreeEmpty <==> valid == None))
            case Pass(r) =>
              && (explicit ==> exists p :: Holds(valid, Named(p)))
              && (Choosy(initial) ==>
                    Holds(valid, AnyPolicy) || exists p :: Named(p) in initial && Holds(valid, Named(p)))
              && forall q :: q in r <==>
                   if Choosy(initial) then q in initial && (Holds(valid, AnyPolicy) || (q.Named? && Holds(valid, q)))
                   else Holds(valid, q)
  {
    if valid.Some? && valid.value != {AnyPolicy} {
      OneIsNamed(valid.value);
      var p :| Named(p) in valid.value;
      assert Holds(valid, Named(p));
      var common := valid.value * initial;
      if common != {} {
        var q :| q in common;
        assert q.Named? ==> Named(q.oid) in initial && Holds(valid, Named(q.oid));
      }
      assert forall p :: Named(p) in initial && Holds(valid, Named(p)) ==> Named(p) in common;
    }
  }

  lemma OneIsNamed(valid: set<Policy>)
    requires valid != {} && valid != {AnyPolicy}
    ensures exists p :: Named(p) in valid
  {
    assert !(valid <= {AnyPolicy});
    var q :| q in valid && q !in {AnyPolicy};
    assert Named(q.oid) in valid;
  }

  /** The two readings of a pass agree. */
  lemma PassesMeans(path: seq<PolicyCert>, initial: set<Policy>)
    requires |path| > 0
    ensures PathPasses(path, initial) <==> PoliciesInOrder(path, initial)
  {
    hide MappingFault, MapsAny, ValidAt, AllOpen, Left, InEffect, ExplicitNeeded;
    NoFaults(path);
    ValidMeans(path);
    EffectsMean(path, 0);
    if Choosy(initial) && AllOpen(path) {
      var q :| q in initial;
      assert q in initial && Holds(ValidAt(path, 0), AnyPolicy);
    }
    if Wanted(path, initial) {
      var p :| Named(p) in initial && Left(path, p);
      assert Named(p) in initial && Holds(ValidAt(path, 0), Named(p));
    }
    forall q | Choosy(initial) && q in initial && Holds(ValidAt(path, 0), q) ensures Wanted(path, initial) {
      assert Named(q.oid) in initial && Left(path, q.oid);
    }
  }
}
