/** A StatefulSet's reconciliations converge: each step that changes the world lowers a measure, and the measure is
    zero exactly in the converged worlds. */
module StatefulConvergence {

  import opened Wrappers
  import opened Collections
  import opened Decimal
  import opened PodNames
  import opened StatefulPods
  import opened StatefulReconcile

  // ---------------------------------------------------------------- what is aimed for, and how far it is

  /** Exactly the Pods 0 .. replicas-1, all live and matching, with their claims. */
  ghost predicate Converged(set_: StatefulSet, w: World) {
    && (forall k :: k in w.pods ==> !Condemned(set_, k))
    && forall n: nat | n < Desired(set_) :: InOrder(set_, w, n)
  }

  ghost predicate InOrder(set_: StatefulSet, w: World, n: nat) {
    var k := PodName(set_.name, n);
    && k in w.pods && Wanted(set_, n, w.pods[k])
    && Needed(set_, n) <= w.claims
  }

  /** What an ordinal's Pod still costs: replacing an outdated one outweighs waiting for it to go, that outweighs
      creating it, and that outweighs nothing at all. */
  function PodCost(set_: StatefulSet, pods: map<string, Pod>, n: nat): nat {
    var k := PodName(set_.name, n);
    if k !in pods then 2
    else if pods[k].terminating then 3
    else LiveCost(set_, pods[k])
  }

  function LiveCost(set_: StatefulSet, pod: Pod): nat {
    (if PodSpecMatches(set_, pod) then 0 else 4) + (if IdentityMatches(set_, pod) then 0 else 1)
  }

  function Slot(set_: StatefulSet, w: World, n: nat): nat {
    PodCost(set_, w.pods, n) + |Needed(set_, n) - w.claims|
  }

  function Slots(set_: StatefulSet, w: World, n: nat): nat {
    if n == 0 then 0 else Slots(set_, w, n - 1) + Slot(set_, w, n - 1)
  }

  function CondemnedNames(set_: StatefulSet, pods: map<string, Pod>): set<string> {
    set k | k in pods && Condemned(set_, k)
  }

  function LiveCondemned(set_: StatefulSet, pods: map<string, Pod>): set<string> {
    set k | k in pods && Condemned(set_, k) && !pods[k].terminating
  }

  function Surplus(set_: StatefulSet, pods: map<string, Pod>): nat {
    |CondemnedNames(set_, pods)| + |LiveCondemned(set_, pods)|
  }

  function Measure(set_: StatefulSet, w: World): nat {
    Slots(set_, w, Desired(set_)) + Surplus(set_, w.pods)
  }

  // ---------------------------------------------------------------- sums and sizes

  lemma {:induction false} FewerInSlots(set_: StatefulSet, w: World, w': World, n: nat)
    requires forall j: nat | j < n :: Slot(set_, w', j) <= Slot(set_, w, j)
    ensures Slots(set_, w', n) <= Slots(set_, w, n)
    ensures Slots(set_, w', n) == Slots(set_, w, n) ==> forall j: nat | j < n :: Slot(set_, w', j) == Slot(set_, w, j)
  {
    hide Slot;
    if n > 0 {
      FewerInSlots(set_, w, w', n - 1);
    }
  }

  /** The measure is zero exactly when the set has converged. */
  lemma MeasureZeroIffConverged(set_: StatefulSet, w: World)
    requires ValidWorld(set_, w) && InRange(set_)
    ensures Measure(set_, w) == 0 <==> Converged(set_, w)
  {
    hide Slot, InOrder, Condemned;
    SlotsZero(set_, w, Desired(set_));
    if Converged(set_, w) {
      assert CondemnedNames(set_, w.pods) == {};
      assert LiveCondemned(set_, w.pods) == {};
    }
    if Measure(set_, w) == 0 {
      forall k | k in w.pods ensures !Condemned(set_, k) {
        assert k !in CondemnedNames(set_, w.pods);
      }
    }
  }

  lemma SlotZero(set_: StatefulSet, w: World, n: nat)
    requires n <= MAX_ORDINAL && ValidWorld(set_, w)
    ensures Slot(set_, w, n) == 0 <==> InOrder(set_, w, n)
  {
    hide PodName, PodSpecMatches, IdentityMatches, Needed, IsMemberOf;
    if |Needed(set_, n) - w.claims| == 0 {
      assert Needed(set_, n) - w.claims == {};
      forall c | c in Needed(set_, n) ensures c in w.claims {
        assert c !in Needed(set_, n) - w.claims;
      }
    }
    if Needed(set_, n) <= w.claims {
      assert Needed(set_, n) - w.claims == {};
    }
  }

  lemma {:induction false} SlotsZero(set_: StatefulSet, w: World, n: nat)
    requires n <= MAX_ORDINAL && ValidWorld(set_, w)
    ensures Slots(set_, w, n) == 0 <==> forall j: nat | j < n :: InOrder(set_, w, j)
  {
    hide Slot, InOrder, ValidWorld;
    if n > 0 {
      SlotsZero(set_, w, n - 1);
      SlotZero(set_, w, n - 1);
    }
  }

  // ---------------------------------------------------------------- the repairs of one reconciliation

  lemma RepairedPod(set_: StatefulSet, pod: Pod)
    requires IsMemberOf(set_.name, pod.name)
    ensures var r := Repaired(set_, pod);
            && r.name == pod.name && r.terminating == pod.terminating
            && r.namespace == set_.namespace
            && IdentityMatches(set_, r)
            && PodSpecMatches(set_, r) == PodSpecMatches(set_, pod)
            && (r == pod <==> IdentityMatches(set_, pod))
  {
    hide IsMemberOf, StorageMatches;
    IdentifiedMember(set_, pod);
    assert StorageMatches(set_, Identified(set_, pod)) == StorageMatches(set_, pod) by { SameStorage(set_, pod); }
  }

  lemma SameStorage(set_: StatefulSet, pod: Pod)
    requires Identified(set_, pod).name == pod.name && Identified(set_, pod).spec == pod.spec
    ensures StorageMatches(set_, Identified(set_, pod)) == StorageMatches(set_, pod)
  {
    hide Identified;
  }

  lemma PartialPod(set_: StatefulSet, w: World, n: nat, j: nat)
    requires ValidWorld(set_, w) && j <= MAX_ORDINAL
    ensures var k := PodName(set_.name, j); var u := Partial(set_, w, n);
            && (k in u.pods <==> k in w.pods)
            && (k in w.pods ==> u.pods[k] == if j < n then Repaired(set_, w.pods[k]) else w.pods[k])
            && (k in w.pods ==> IsMemberOf(set_.name, k) && w.pods[k].name == k)
  {
    hide Repaired, IsMemberOf;
    if PodName(set_.name, j) in w.pods {
      OnlyKeyOfOrdinal(set_, w, j, PodName(set_.name, j));
    }
  }

  lemma NeededBelowHas(set_: StatefulSet, n: nat, j: nat)
    requires j < n
    ensures Needed(set_, j) <= NeededBelow(set_, n)
  {
    hide ClaimName;
  }

  /** Repairs make no ordinal cost more; an ordinal they leave at the same cost they leave alone. */
  lemma PartialSlot(set_: StatefulSet, w: World, n: nat, j: nat)
    requires ValidWorld(set_, w) && NoneBlocked(set_, w, n) && j <= MAX_ORDINAL
    ensures Slot(set_, Partial(set_, w, n), j) <= Slot(set_, w, j)
    ensures j < n ==> PodName(set_.name, j) in w.pods
    ensures j < n && Slot(set_, Partial(set_, w, n), j) == Slot(set_, w, j) ==>
              && Needed(set_, j) <= w.claims
              && Repaired(set_, w.pods[PodName(set_.name, j)]) == w.pods[PodName(set_.name, j)]
  {
    hide ValidWorld, Repaired, IdentityMatches, PodSpecMatches, Needed, RepairedBelow, NeededBelow, IsMemberOf, PodName;
    var k, u := PodName(set_.name, j), Partial(set_, w, n);
    PartialPod(set_, w, n, j);
    assert w.claims <= u.claims;
    SubsetCount(Needed(set_, j) - u.claims, Needed(set_, j) - w.claims);
    if j < n {
      assert !Blocked(set_, w, j);
      RepairedPod(set_, w.pods[k]);
      NeededBelowHas(set_, n, j);
      assert Needed(set_, j) - u.claims == {};
    }
  }

  lemma PartialUnchanged(set_: StatefulSet, w: World, n: nat)
    requires ValidWorld(set_, w) && n <= MAX_ORDINAL
    requires forall j: nat | j < n ::
               && Needed(set_, j) <= w.claims
               && PodName(set_.name, j) in w.pods
               && Repaired(set_, w.pods[PodName(set_.name, j)]) == w.pods[PodName(set_.name, j)]
    ensures Partial(set_, w, n) == w
  {
    hide Repaired, PodName, Needed, OrdinalOf, NeededBelow, IsMemberOf;
    forall k | k in w.pods && 0 <= OrdinalOf(k) < n ensures Repaired(set_, w.pods[k]) == w.pods[k] {
      OnlyKeyOfOrdinal(set_, w, OrdinalOf(k), k);
    }
    assert RepairedBelow(set_, w.pods, n) == w.pods;
    NeededBelowCovered(set_, w.claims, n);
    assert w.claims + NeededBelow(set_, n) == w.claims;
  }

  lemma NeededBelowCovered(set_: StatefulSet, claims: set<string>, n: nat)
    requires forall j: nat | j < n :: Needed(set_, j) <= claims
    ensures NeededBelow(set_, n) <= claims
  {
    hide ClaimName;
    forall c | c in NeededBelow(set_, n) ensures c in claims {
      var t, j :| t in TemplateNames(set_) && 0 <= j < n && c == ClaimName(set_.name, t, j);
      assert c in Needed(set_, j);
    }
  }

  lemma PartialSurplus(set_: StatefulSet, w: World, n: nat)
    requires n <= Desired(set_)
    ensures CondemnedNames(set_, Partial(set_, w, n).pods) == CondemnedNames(set_, w.pods)
    ensures LiveCondemned(set_, Partial(set_, w, n).pods) == LiveCondemned(set_, w.pods)
  {
    hide OrdinalOf;
  }

  /** The repairs of one reconciliation never raise the measure, and lower it when they change anything. */
  lemma PartialMeasure(set_: StatefulSet, w: World, n: nat)
    requires ValidWorld(set_, w) && InRange(set_) && n <= Desired(set_) && NoneBlocked(set_, w, n)
    ensures Measure(set_, Partial(set_, w, n)) <= Measure(set_, w)
    ensures Partial(set_, w, n) == w || Measure(set_, Partial(set_, w, n)) < Measure(set_, w)
  {
    hide Slot, Partial, Repaired, Needed, PodName, CondemnedNames, LiveCondemned, ValidWorld, NoneBlocked;
    var u := Partial(set_, w, n);
    PartialSurplus(set_, w, n);
    forall j: nat | j < Desired(set_)
      ensures Slot(set_, u, j) <= Slot(set_, w, j)
      ensures j < n ==> PodName(set_.name, j) in w.pods
      ensures j < n && Slot(set_, u, j) == Slot(set_, w, j) ==>
                && Needed(set_, j) <= w.claims
                && Repaired(set_, w.pods[PodName(set_.name, j)]) == w.pods[PodName(set_.name, j)]
    {
      PartialSlot(set_, w, n, j);
    }
    FewerInSlots(set_, w, u, Desired(set_));
    if Measure(set_, u) == Measure(set_, w) {
      PartialUnchanged(set_, w, n);
    }
  }

  lemma PartialValid(set_: StatefulSet, w: World, n: nat)
    requires ValidWorld(set_, w)
    ensures ValidWorld(set_, Partial(set_, w, n))
  {
    hide IsMemberOf, Repaired, OrdinalOf;
    forall k | k in w.pods
      ensures Repaired(set_, w.pods[k]).name == k && Repaired(set_, w.pods[k]).namespace == set_.namespace
    {
      RepairedPod(set_, w.pods[k]);
    }
  }

  // ---------------------------------------------------------------- a change to a single Pod

  ghost predicate OnlyDiffer(pods: map<string, Pod>, pods': map<string, Pod>, k: string) {
    forall j :: j != k ==> (j in pods <==> j in pods') && (j in pods ==> pods[j] == pods'[j])
  }

  lemma DesiredName(set_: StatefulSet, n: nat)
    requires InRange(set_) && n < Desired(set_)
    ensures IsMemberOf(set_.name, PodName(set_.name, n)) && !Condemned(set_, PodName(set_.name, n))
  {
    ParseOfPodName(set_.name, n);
  }

  /** A member that is not condemned is a desired one. */
  lemma DesiredOrdinal(set_: StatefulSet, w: World, k: string) returns (n: nat)
    requires ValidWorld(set_, w) && k in w.pods && !Condemned(set_, k)
    ensures n < Desired(set_) && k == PodName(set_.name, n)
  {
    assert IsMemberOf(set_.name, k);
    n := OrdinalOf(k);
  }

  lemma SlotElsewhere(set_: StatefulSet, w: World, w': World, k: string, j: nat)
    requires OnlyDiffer(w.pods, w'.pods, k) && w.claims <= w'.claims && PodName(set_.name, j) != k
    ensures Slot(set_, w', j) <= Slot(set_, w, j)
  {
    hide PodName, Needed, LiveCost;
    SubsetCount(Needed(set_, j) - w'.claims, Needed(set_, j) - w.claims);
  }

  lemma SurplusElsewhere(set_: StatefulSet, pods: map<string, Pod>, pods': map<string, Pod>, k: string)
    requires OnlyDiffer(pods, pods', k) && !Condemned(set_, k)
    ensures Surplus(set_, pods') == Surplus(set_, pods)
  {
    hide Condemned;
    assert CondemnedNames(set_, pods') == CondemnedNames(set_, pods);
    assert LiveCondemned(set_, pods') == LiveCondemned(set_, pods);
  }

  lemma DesiredChange(set_: StatefulSet, w: World, w': World, n: nat)
    requires InRange(set_) && n < Desired(set_) && w.claims <= w'.claims
    requires OnlyDiffer(w.pods, w'.pods, PodName(set_.name, n)) && Slot(set_, w', n) < Slot(set_, w, n)
    ensures Measure(set_, w') < Measure(set_, w)
  {
    hide Slot, Condemned, OnlyDiffer, PodName, Surplus, IsMemberOf;
    DesiredName(set_, n);
    SurplusElsewhere(set_, w.pods, w'.pods, PodName(set_.name, n));
    forall j: nat | j < Desired(set_) ensures Slot(set_, w', j) <= Slot(set_, w, j) {
      if j != n {
        if PodName(set_.name, j) == PodName(set_.name, n) {
          PodNameInjective(set_.name, j, n);
        }
        SlotElsewhere(set_, w, w', PodName(set_.name, n), j);
      }
    }
    FewerInSlots(set_, w, w', Desired(set_));
  }

  lemma CondemnedChange(set_: StatefulSet, w: World, w': World, k: string)
    requires InRange(set_) && Condemned(set_, k) && w.claims <= w'.claims
    requires OnlyDiffer(w.pods, w'.pods, k) && Surplus(set_, w'.pods) < Surplus(set_, w.pods)
    ensures Measure(set_, w') < Measure(set_, w)
  {
    hide Slot, Condemned, OnlyDiffer, PodName, Surplus, IsMemberOf;
    forall j: nat | j < Desired(set_) ensures Slot(set_, w', j) <= Slot(set_, w, j) {
      DesiredName(set_, j);
      SlotElsewhere(set_, w, w', k, j);
    }
    FewerInSlots(set_, w, w', Desired(set_));
  }

  lemma SurplusRemoved(set_: StatefulSet, pods: map<string, Pod>, k: string)
    requires k in pods && Condemned(set_, k)
    ensures Surplus(set_, pods - {k}) < Surplus(set_, pods)
  {
    hide Condemned;
    SubsetCount(CondemnedNames(set_, pods - {k}), CondemnedNames(set_, pods));
    SubsetCount(LiveCondemned(set_, pods - {k}), LiveCondemned(set_, pods));
    assert k in CondemnedNames(set_, pods);
  }

  lemma SurplusTerminated(set_: StatefulSet, pods: map<string, Pod>, k: string)
    requires k in pods && Condemned(set_, k) && !pods[k].terminating
    ensures Surplus(set_, pods[k := pods[k].(terminating := true)]) < Surplus(set_, pods)
  {
    hide Condemned;
    var pods' := pods[k := pods[k].(terminating := true)];
    assert CondemnedNames(set_, pods') == CondemnedNames(set_, pods);
    SubsetCount(LiveCondemned(set_, pods'), LiveCondemned(set_, pods));
    assert k in LiveCondemned(set_, pods);
  }

  // ---------------------------------------------------------------- the writes of one reconciliation

  lemma CreatedDecreases(set_: StatefulSet, w: World, n: nat, w': World)
    requires ValidWorld(set_, w) && InRange(set_) && n < Desired(set_) && NoneBlocked(set_, w, n)
    requires PodName(set_.name, n) !in w.pods && Created(set_, w, n, w')
    ensures ValidWorld(set_, w') && Measure(set_, w') < Measure(set_, w)
  {
    hide ValidWorld, PodName, Slot, NoneBlocked, Measure, Wanted, RepairedBelow, NeededBelow, Needed, IsMemberOf;
    var u := Partial(set_, w, n);
    PartialValid(set_, w, n);
    PartialMeasure(set_, w, n);
    PartialKeeps(set_, w, n, PodName(set_.name, n));
    NeededStep(set_, n);
    var pod :| BuiltFor(set_, n, pod) && w' == World(u.pods[pod.name := pod], Partial(set_, w, n + 1).claims);
    CreatedSlot(set_, u, n, pod, w');
    DesiredChange(set_, u, w', n);
  }

  lemma CreatedSlot(set_: StatefulSet, u: World, n: nat, pod: Pod, w': World)
    requires ValidWorld(set_, u) && InRange(set_) && n < Desired(set_) && PodName(set_.name, n) !in u.pods
    requires Wanted(set_, n, pod) && w'.pods == u.pods[pod.name := pod] && Needed(set_, n) <= w'.claims
    ensures ValidWorld(set_, w')
    ensures OnlyDiffer(u.pods, w'.pods, PodName(set_.name, n)) && Slot(set_, w', n) < Slot(set_, u, n)
  {
    hide PodName, PodSpecMatches, Needed, IsMemberOf, ParentNameAndOrdinal;
    DesiredName(set_, n);
    assert Needed(set_, n) - w'.claims == {};
  }

  lemma DeletedDecreases(set_: StatefulSet, u: World, name: string, atOnce: Pod -> bool)
    requires ValidWorld(set_, u) && InRange(set_) && name in u.pods && !u.pods[name].terminating
    requires Condemned(set_, name) || !PodSpecMatches(set_, u.pods[name])
    ensures var w' := World(Deleted(u.pods, name, atOnce), u.claims);
            ValidWorld(set_, w') && Measure(set_, w') < Measure(set_, u)
  {
    hide PodName, PodSpecMatches, Condemned, Needed, IsMemberOf, IdentityMatches, Measure, Surplus;
    var w' := World(Deleted(u.pods, name, atOnce), u.claims);
    assert OnlyDiffer(u.pods, w'.pods, name);
    if Condemned(set_, name) {
      SurplusRemoved(set_, u.pods, name);
      if !atOnce(u.pods[name]) {
        SurplusTerminated(set_, u.pods, name);
      }
      CondemnedChange(set_, u, w', name);
    } else {
      var n := DesiredOrdinal(set_, u, name);
      DesiredChange(set_, u, w', n);
    }
  }

  lemma VictimInWorld(set_: StatefulSet, w: World, name: string)
    requires ValidWorld(set_, w) && InRange(set_) && Victim(set_, w, name)
    ensures name in w.pods && (Condemned(set_, name) || !PodSpecMatches(set_, w.pods[name]))
  {
    hide Condemned, PodSpecMatches, PodName, ValidWorld;
  }

  lemma TrimmedDecreases(set_: StatefulSet, w: World, w': World, atOnce: Pod -> bool)
    requires ValidWorld(set_, w) && InRange(set_) && NoneBlocked(set_, w, Desired(set_))
    requires Trimmed(set_, w, Partial(set_, w, Desired(set_)), w', atOnce)
    ensures ValidWorld(set_, w') && (w' == w || Measure(set_, w') < Measure(set_, w))
  {
    hide ValidWorld, Victim, Measure, Condemned, PodSpecMatches, NoneBlocked, Partial, Deleted;
    var u := Partial(set_, w, Desired(set_));
    PartialValid(set_, w, Desired(set_));
    PartialMeasure(set_, w, Desired(set_));
    if exists name :: Victim(set_, w, name) {
      var name :| Victim(set_, w, name) && name in u.pods
                  && w' == DeletedUnless(u.pods[name].terminating, u, name, atOnce);
      VictimInWorld(set_, w, name);
      PartialVictim(set_, w, name);
      if !u.pods[name].terminating {
        DeletedDecreases(set_, u, name, atOnce);
      }
    }
  }

  lemma PartialVictim(set_: StatefulSet, w: World, name: string)
    requires ValidWorld(set_, w) && name in w.pods
    ensures var u := Partial(set_, w, Desired(set_));
            && name in u.pods && u.pods[name].terminating == w.pods[name].terminating
            && PodSpecMatches(set_, u.pods[name]) == PodSpecMatches(set_, w.pods[name])
  {
    hide PodSpecMatches, IsMemberOf, Repaired, OrdinalOf;
    RepairedPod(set_, w.pods[name]);
  }

  // ---------------------------------------------------------------- main results

  /** Every reconciliation that changes anything lowers the measure. */
  lemma StepDecreases(set_: StatefulSet, w: World, w': World, atOnce: Pod -> bool)
    requires ValidWorld(set_, w) && InRange(set_) && NextWorld(set_, w, w', atOnce)
    ensures ValidWorld(set_, w') && (w' == w || Measure(set_, w') < Measure(set_, w))
  {
    hide ValidWorld, NoneBlocked, Blocked, Trimmed, Partial, Measure, Created;
    var n: nat :| StopsAt(set_, w, n) && NextAt(set_, w, n, w', atOnce);
    if n == Desired(set_) {
      TrimmedDecreases(set_, w, w', atOnce);
    } else if PodName(set_.name, n) in w.pods {
      PartialValid(set_, w, n);
      PartialMeasure(set_, w, n);
    } else {
      CreatedDecreases(set_, w, n, w');
    }
  }

  ghost predicate AnyTerminating(w: World) {
    exists k :: k in w.pods && w.pods[k].terminating
  }

  /** A terminating Pod finishes: its kubelet lets go of it. */
  ghost predicate Removed(w: World, w': World) {
    exists k :: k in w.pods && w.pods[k].terminating && w' == World(w.pods - {k}, w.claims)
  }

  lemma RemovalDecreases(set_: StatefulSet, w: World, w': World)
    requires ValidWorld(set_, w) && InRange(set_) && Removed(w, w')
    ensures ValidWorld(set_, w') && Measure(set_, w') < Measure(set_, w)
  {
    hide PodName, Condemned, Needed, IsMemberOf, Measure, Surplus, LiveCost;
    var k :| k in w.pods && w.pods[k].terminating && w' == World(w.pods - {k}, w.claims);
    assert OnlyDiffer(w.pods, w'.pods, k);
    if Condemned(set_, k) {
      SurplusRemoved(set_, w.pods, k);
      CondemnedChange(set_, w, w', k);
    } else {
      var n := DesiredOrdinal(set_, w, k);
      DesiredChange(set_, w, w', n);
    }
  }

  lemma TopCondemnedExists(set_: StatefulSet, w: World, k: string)
    requires k in w.pods && Condemned(set_, k)
    ensures exists name :: TopCondemned(set_, w, name)
    decreases MAX_ORDINAL - OrdinalOf(k)
  {
    hide Condemned;
    if j :| j in w.pods && Condemned(set_, j) && OrdinalOf(j) > OrdinalOf(k) {
      OrdinalAtMostMax(j);
      TopCondemnedExists(set_, w, j);
    } else {
      assert TopCondemned(set_, w, k);
    }
  }

  lemma OrdinalAtMostMax(name: string)
    ensures OrdinalOf(name) <= MAX_ORDINAL
  {
    hide Number, LastDash;
  }

  lemma TopOutdatedExists(set_: StatefulSet, w: World, n: nat)
    requires n < Desired(set_) && Outdated(set_, w, n)
    ensures exists m: nat :: TopOutdated(set_, w, m)
    decreases Desired(set_) - n
  {
    hide Outdated;
    if j: nat :| n < j < Desired(set_) && Outdated(set_, w, j) {
      TopOutdatedExists(set_, w, j);
    } else {
      assert TopOutdated(set_, w, n);
    }
  }

  /** Where something is condemned or outdated, the reconciliation finds something to delete. */
  lemma VictimExists(set_: StatefulSet, w: World)
    requires (exists k :: k in w.pods && Condemned(set_, k))
             || exists n: nat :: n < Desired(set_) && Outdated(set_, w, n)
    ensures exists name :: Victim(set_, w, name)
  {
    hide TopCondemned, Condemned, Outdated, TopOutdated;
    if k :| k in w.pods && Condemned(set_, k) {
      TopCondemnedExists(set_, w, k);
      var name :| TopCondemned(set_, w, name);
      assert Victim(set_, w, name);
    } else {
      var n: nat :| n < Desired(set_) && Outdated(set_, w, n);
      TopOutdatedExists(set_, w, n);
      var m: nat :| TopOutdated(set_, w, m);
      assert Victim(set_, w, PodName(set_.name, m));
    }
  }

  /** When the desired Pods run, the repairs change nothing and nothing is to be deleted, all is in order. */
  lemma NothingLeftToDo(set_: StatefulSet, w: World)
    requires ValidWorld(set_, w) && InRange(set_) && NoneBlocked(set_, w, Desired(set_))
    requires Partial(set_, w, Desired(set_)) == w && forall name :: !Victim(set_, w, name)
    ensures Converged(set_, w)
  {
    hide ValidWorld, Victim, PodSpecMatches, IdentityMatches, Condemned, PodName, Needed, Partial, IsMemberOf, Repaired;
    if (exists k :: k in w.pods && Condemned(set_, k)) || exists n: nat :: n < Desired(set_) && Outdated(set_, w, n) {
      VictimExists(set_, w);
    }
    forall n: nat | n < Desired(set_) ensures InOrder(set_, w, n) {
      assert !Blocked(set_, w, n) && !Outdated(set_, w, n);
      PartialSlot(set_, w, Desired(set_), n);
      PartialPod(set_, w, Desired(set_), n);
      RepairedPod(set_, w.pods[PodName(set_.name, n)]);
    }
  }

  /** A world the reconciliation leaves alone waits for a terminating Pod or has converged. */
  lemma StuckIsConverged(set_: StatefulSet, w: World, atOnce: Pod -> bool)
    requires ValidWorld(set_, w) && InRange(set_) && NextWorld(set_, w, w, atOnce)
    ensures AnyTerminating(w) || Converged(set_, w)
  {
    hide ValidWorld, NoneBlocked, Partial, Measure, Created, Converged;
    hide Condemned, PodSpecMatches, PodName, Victim, Deleted;
    if !AnyTerminating(w) {
      var n: nat :| StopsAt(set_, w, n) && NextAt(set_, w, n, w, atOnce);
      var u := Partial(set_, w, n);
      PartialValid(set_, w, n);
      PartialMeasure(set_, w, n);
      if n < Desired(set_) {
        CreatedDecreases(set_, w, n, w);
      } else if name :| Victim(set_, w, name) && name in u.pods
                        && w == DeletedUnless(u.pods[name].terminating, u, name, atOnce) {
        VictimInWorld(set_, w, name);
        PartialVictim(set_, w, name);
        DeletedDecreases(set_, u, name, atOnce);
      } else {
        NothingLeftToDo(set_, w);
      }
    }
  }

  lemma ConvergedIsQuiet(set_: StatefulSet, w: World)
    requires ValidWorld(set_, w) && InRange(set_) && Converged(set_, w)
    ensures !AnyTerminating(w)
    ensures NoneBlocked(set_, w, Desired(set_)) && Partial(set_, w, Desired(set_)) == w
    ensures forall name :: !Victim(set_, w, name)
  {
    hide PodSpecMatches, IdentityMatches, Condemned, PodName, Needed, Partial, ValidWorld, IsMemberOf;
    forall k | k in w.pods ensures !w.pods[k].terminating {
      var n := DesiredOrdinal(set_, w, k);
      assert InOrder(set_, w, n);
    }
    forall n: nat | n < Desired(set_) ensures !Blocked(set_, w, n) && !Outdated(set_, w, n) {
      assert InOrder(set_, w, n);
    }
    forall n: nat | n < Desired(set_)
      ensures Needed(set_, n) <= w.claims && PodName(set_.name, n) in w.pods
      ensures Repaired(set_, w.pods[PodName(set_.name, n)]) == w.pods[PodName(set_.name, n)]
    {
      assert InOrder(set_, w, n);
    }
    PartialUnchanged(set_, w, Desired(set_));
  }

  /** A converged set is left exactly as it is. */
  lemma ConvergedIsFixed(set_: StatefulSet, w: World, w': World, atOnce: Pod -> bool)
    requires ValidWorld(set_, w) && InRange(set_) && Converged(set_, w)
    ensures NextWorld(set_, w, w', atOnce) <==> w' == w
  {
    hide ValidWorld, Blocked, Partial, Victim, Converged, StoppedAt, AnyTerminating;
    ConvergedIsQuiet(set_, w);
    assert StopsAt(set_, w, Desired(set_));
    assert forall n: nat :: StopsAt(set_, w, n) ==> n == Desired(set_);
    assert NextAt(set_, w, Desired(set_), w', atOnce) <==> w' == w;
  }

  /** With no Pod on its way out, the fixpoints of reconciliation are exactly the converged worlds. */
  lemma FixpointIffConverged(set_: StatefulSet, w: World, atOnce: Pod -> bool)
    requires ValidWorld(set_, w) && InRange(set_) && !AnyTerminating(w)
    ensures NextWorld(set_, w, w, atOnce) <==> Converged(set_, w)
  {
    hide NextWorld, ValidWorld, Converged, AnyTerminating;
    if Converged(set_, w) {
      ConvergedIsFixed(set_, w, w, atOnce);
    } else if NextWorld(set_, w, w, atOnce) {
      StuckIsConverged(set_, w, atOnce);
    }
  }

  // ---------------------------------------------------------------- whole runs

  /** At every instant the controller reconciles, a terminating Pod goes, or nothing happens. */
  ghost predicate IsRun(set_: StatefulSet, ws: nat -> World, atOnce: Pod -> bool) {
    forall i: nat :: RunStep(set_, ws, i, atOnce)
  }

  ghost predicate RunStep(set_: StatefulSet, ws: nat -> World, i: nat, atOnce: Pod -> bool) {
    ws(i + 1) == ws(i) || Removed(ws(i), ws(i + 1)) || Reconciles(set_, ws, i, atOnce)
  }

  ghost predicate Reconciles(set_: StatefulSet, ws: nat -> World, i: nat, atOnce: Pod -> bool) {
    NextWorld(set_, ws(i), ws(i + 1), atOnce)
  }

  ghost predicate Terminating(ws: nat -> World, i: nat) {
    AnyTerminating(ws(i))
  }

  /** The controller reconciles again and again, and terminating Pods do not stay forever. */
  ghost predicate Fair(set_: StatefulSet, ws: nat -> World, atOnce: Pod -> bool) {
    forall i: nat :: ReconcilesFrom(set_, ws, i, atOnce) && (Terminating(ws, i) ==> MovesOnFrom(ws, i))
  }

  ghost predicate ReconcilesFrom(set_: StatefulSet, ws: nat -> World, i: nat, atOnce: Pod -> bool) {
    exists j: nat :: i <= j && Reconciles(set_, ws, j, atOnce)
  }

  ghost predicate MovesOnFrom(ws: nat -> World, i: nat) {
    exists j: nat :: i <= j && ws(j) != ws(i)
  }

  /** From `n` on the world is converged and stays the same. */
  ghost predicate SettledFrom(set_: StatefulSet, ws: nat -> World, n: nat) {
    Converged(set_, ws(n)) && forall i: nat | n <= i :: ws(i) == ws(n)
  }

  /** How often the world changed before `n`. */
  ghost function Changes(ws: nat -> World, n: nat): nat {
    if n == 0 then 0 else Changes(ws, n - 1) + if ws(n) != ws(n - 1) then 1 else 0
  }

  /** Validity lasts, and every change is paid for by the measure. */
  lemma {:induction false} ChangesBounded(set_: StatefulSet, ws: nat -> World, atOnce: Pod -> bool, n: nat)
    requires IsRun(set_, ws, atOnce) && ValidWorld(set_, ws(0)) && InRange(set_)
    ensures ValidWorld(set_, ws(n))
    ensures Changes(ws, n) + Measure(set_, ws(n)) <= Measure(set_, ws(0))
  {
    hide ValidWorld, Measure, NextWorld, Removed;
    if n > 0 {
      ChangesBounded(set_, ws, atOnce, n - 1);
      assert RunStep(set_, ws, n - 1, atOnce);
      if Removed(ws(n - 1), ws(n)) {
        RemovalDecreases(set_, ws(n - 1), ws(n));
      } else if Reconciles(set_, ws, n - 1, atOnce) {
        StepDecreases(set_, ws(n - 1), ws(n), atOnce);
      }
    }
  }

  lemma {:induction false} LaterIsLower(set_: StatefulSet, ws: nat -> World, atOnce: Pod -> bool, i: nat, j: nat)
    requires IsRun(set_, ws, atOnce) && ValidWorld(set_, ws(i)) && InRange(set_) && i <= j
    ensures ValidWorld(set_, ws(j))
    ensures ws(j) == ws(i) || Measure(set_, ws(j)) < Measure(set_, ws(i))
    decreases j
  {
    hide ValidWorld, Measure, NextWorld, Removed;
    if i < j {
      LaterIsLower(set_, ws, atOnce, i, j - 1);
      assert RunStep(set_, ws, j - 1, atOnce);
      if Removed(ws(j - 1), ws(j)) {
        RemovalDecreases(set_, ws(j - 1), ws(j));
      } else if Reconciles(set_, ws, j - 1, atOnce) {
        StepDecreases(set_, ws(j - 1), ws(j), atOnce);
      }
    }
  }

  /** A fair run from `i` reaches a converged world. */
  lemma {:induction false} EventuallyConverged(set_: StatefulSet, ws: nat -> World, atOnce: Pod -> bool, i: nat)
    returns (n: nat)
    requires IsRun(set_, ws, atOnce) && Fair(set_, ws, atOnce) && ValidWorld(set_, ws(i)) && InRange(set_)
    ensures i <= n && ValidWorld(set_, ws(n)) && Converged(set_, ws(n))
    decreases Measure(set_, ws(i))
  {
    hide ValidWorld, Measure, NextWorld, Converged, AnyTerminating, IsRun;
    if Converged(set_, ws(i)) {
      return i;
    }
    var j: nat;
    assert ReconcilesFrom(set_, ws, i, atOnce);
    if Terminating(ws, i) {
      j :| i <= j && ws(j) != ws(i);
    } else {
      j :| i <= j && Reconciles(set_, ws, j, atOnce);
      if ws(j) == ws(i) {
        if ws(j + 1) == ws(j) {
          StuckIsConverged(set_, ws(i), atOnce);
        }
        j := j + 1;
      }
    }
    LaterIsLower(set_, ws, atOnce, i, j);
    n := EventuallyConverged(set_, ws, atOnce, j);
  }

  lemma {:induction false} StaysConverged(set_: StatefulSet, ws: nat -> World, atOnce: Pod -> bool, n: nat, i: nat)
    requires IsRun(set_, ws, atOnce) && InRange(set_) && ValidWorld(set_, ws(n)) && Converged(set_, ws(n)) && n <= i
    ensures ws(i) == ws(n)
    decreases i
  {
    hide ValidWorld, NextWorld, Converged;
    if n < i {
      StaysConverged(set_, ws, atOnce, n, i - 1);
      assert RunStep(set_, ws, i - 1, atOnce);
      ConvergedIsQuiet(set_, ws(n));
      ConvergedIsFixed(set_, ws(n), ws(i), atOnce);
    }
  }

  /** Convergence: from any valid world, every fair run reaches a converged world and stays in it for good. */
  lemma Convergence(set_: StatefulSet, ws: nat -> World, atOnce: Pod -> bool)
    requires IsRun(set_, ws, atOnce) && Fair(set_, ws, atOnce) && ValidWorld(set_, ws(0)) && InRange(set_)
    ensures exists n: nat :: SettledFrom(set_, ws, n)
  {
    hide IsRun, Fair, ValidWorld, Converged;
    var n := EventuallyConverged(set_, ws, atOnce, 0);
    forall i: nat | n <= i ensures ws(i) == ws(n) {
      StaysConverged(set_, ws, atOnce, n, i);
    }
    assert SettledFrom(set_, ws, n);
  }
}
