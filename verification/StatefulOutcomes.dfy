/** What the StatefulSet controller's promises come to, in terms of the Pods' own fields. */
module StatefulOutcomes {

  import opened Wrappers
  import opened Decimal
  import opened PodNames
  import opened StatefulPods
  import opened StatefulReconcile
  import opened StatefulConvergence

  // ---------------------------------------------------------------- names

  lemma NamesLookLike()
    ensures PodName("web", 0) == "web-0" && PodName("web", 10) == "web-10" && PodName("a-b", 207) == "a-b-207"
    ensures ClaimName("web", "data", 10) == "data-web-10"
  {
    assert Digits(20) == "20" && Digits(207) == "207";
  }

  // ---------------------------------------------------------------- identity and storage of one Pod

  predicate HasLabel(p: Pod, key: string, value: string) {
    p.labels.Some? && key in p.labels.value && p.labels.value[key] == value
  }

  /** The name, namespace and the two labels are those of ordinal `n`. */
  predicate NamedFor(set_: StatefulSet, n: nat, p: Pod) {
    && p.name == set_.name + "-" + Itoa(n)
    && p.namespace == set_.namespace
    && HasLabel(p, "statefulset.kubernetes.io/pod-name", p.name)
    && HasLabel(p, "apps.kubernetes.io/pod-index", Itoa(n))
  }

  /** The last volume of that name is the claim. */
  ghost predicate Mounts(p: Pod, name: string, claim: string) {
    exists i: nat :: MountedAt(p.spec.volumes, i, name, claim)
  }

  ghost predicate MountedAt(volumes: seq<Volume>, i: nat, name: string, claim: string) {
    && i < |volumes| && volumes[i].name == name && volumes[i].source == Claim(claim)
    && forall j | i < j < |volumes| :: volumes[j].name != name
  }

  function ClaimFor(set_: StatefulSet, t: ClaimTemplate, n: nat): string {
    t.name + "-" + set_.name + "-" + Itoa(n)
  }

  /** The spec is what the set's template asks for at ordinal `n`. */
  ghost predicate SpecifiedFor(set_: StatefulSet, n: nat, p: Pod) {
    && p.spec.hostname == p.name
    && p.spec.subdomain == set_.serviceName
    && p.spec.rest == set_.templateSpec.rest
    && forall t :: t in set_.claimTemplates ==> Mounts(p, t.name, ClaimFor(set_, t, n))
  }

  lemma IdentityMeans(set_: StatefulSet, n: nat, p: Pod)
    requires n <= MAX_ORDINAL && p.name == PodName(set_.name, n)
    ensures IdentityMatches(set_, p) <==> NamedFor(set_, n, p)
  {
    ParseOfPodName(set_.name, n);
    assert |p.name| >= 1;
    hide ParentNameAndOrdinal, Itoa;
  }

  lemma {:induction false} LastNamedMeans(volumes: seq<Volume>, name: string, claim: string)
    ensures LastNamed(volumes, name) == Some(Volume(name, Claim(claim))) <==>
              exists i: nat :: MountedAt(volumes, i, name, claim)
  {
    if volumes != [] {
      var init, last := volumes[..|volumes| - 1], volumes[|volumes| - 1];
      if last.name == name {
        if LastNamed(volumes, name) == Some(Volume(name, Claim(claim))) {
          assert MountedAt(volumes, |init|, name, claim);
        }
      } else {
        LastNamedMeans(init, name, claim);
        if i: nat :| MountedAt(init, i, name, claim) {
          assert MountedAt(volumes, i, name, claim);
        }
        if i: nat :| MountedAt(volumes, i, name, claim) {
          assert MountedAt(init, i, name, claim);
        }
      }
    }
  }

  lemma SpecMeans(set_: StatefulSet, n: nat, p: Pod)
    requires n <= MAX_ORDINAL && p.name == PodName(set_.name, n)
    ensures PodSpecMatches(set_, p) <==> SpecifiedFor(set_, n, p)
  {
    ParseOfPodName(set_.name, n);
    hide ParentNameAndOrdinal, Itoa, LastNamed, MountedAt;
    forall t | t in set_.claimTemplates
      ensures t.name in TemplateNames(set_)
      ensures LastNamed(p.spec.volumes, t.name) == Some(ClaimVolume(set_, t.name, n)) <==>
                Mounts(p, t.name, ClaimFor(set_, t, n))
    {
      LastNamedMeans(p.spec.volumes, t.name, ClaimFor(set_, t, n));
    }
    if SpecifiedFor(set_, n, p) {
      forall name | name in TemplateNames(set_)
        ensures LastNamed(p.spec.volumes, name) == Some(ClaimVolume(set_, name, n))
      {
        var t :| t in set_.claimTemplates && t.name == name;
      }
    }
  }

  /** The identity repair sets the name, the namespace and the two labels, and nothing else: every other label and every
      other field stays. */
  lemma RepairChangesIdentityOnly(set_: StatefulSet, n: nat, p: Pod)
    requires n <= MAX_ORDINAL && p.name == PodName(set_.name, n)
    ensures var o := Identified(set_, p);
            && NamedFor(set_, n, o)
            && o == p.(namespace := set_.namespace, labels := o.labels)
            && SameOtherLabels(p.labels.GetOr(map[]), o.labels.value)
  {
    ParseOfPodName(set_.name, n);
    TwoLabelsSet(p.labels.GetOr(map[]), p.name, Itoa(n));
    hide ParentNameAndOrdinal, Itoa, SameOtherLabels;
  }

  // ---------------------------------------------------------------- the converged world

  function AskedFor(set_: StatefulSet): int {
    match set_.replicas case None => 1 case Some(n) => n
  }

  /** The Pod of ordinal `n` is there, running, and all the template asks for, and so are its claims. */
  ghost predicate Runs(set_: StatefulSet, w: World, n: nat) {
    var k := set_.name + "-" + Itoa(n);
    && k in w.pods && !w.pods[k].terminating
    && NamedFor(set_, n, w.pods[k]) && SpecifiedFor(set_, n, w.pods[k])
    && forall t :: t in set_.claimTemplates ==> ClaimFor(set_, t, n) in w.claims
  }

  ghost predicate LooksRight(set_: StatefulSet, w: World) {
    && (forall k :: k in w.pods ==> exists n: nat :: n < AskedFor(set_) && k == set_.name + "-" + Itoa(n))
    && forall n: nat | n < AskedFor(set_) :: Runs(set_, w, n)
  }

  lemma InOrderMeans(set_: StatefulSet, w: World, n: nat)
    requires n <= MAX_ORDINAL && ValidWorld(set_, w)
    ensures InOrder(set_, w, n) <==> Runs(set_, w, n)
  {
    hide ValidWorld, IdentityMatches, PodSpecMatches, NamedFor, SpecifiedFor, Itoa;
    var k := PodName(set_.name, n);
    ClaimsMean(set_, w.claims, n);
    if k in w.pods {
      assert w.pods[k].name == k by { assert ValidWorld(set_, w); FiledUnder(set_, w, k); }
      IdentityMeans(set_, n, w.pods[k]);
      SpecMeans(set_, n, w.pods[k]);
    }
  }

  lemma FiledUnder(set_: StatefulSet, w: World, k: string)
    requires ValidWorld(set_, w) && k in w.pods
    ensures w.pods[k].name == k
  {
  }

  lemma ClaimsMean(set_: StatefulSet, claims: set<string>, n: nat)
    ensures Needed(set_, n) <= claims <==> forall t :: t in set_.claimTemplates ==> ClaimFor(set_, t, n) in claims
  {
    hide Itoa;
    if Needed(set_, n) <= claims {
      forall t | t in set_.claimTemplates ensures ClaimFor(set_, t, n) in claims {
        assert t.name in TemplateNames(set_);
        assert ClaimName(set_.name, t.name, n) in Needed(set_, n);
      }
    }
  }

  /** Converged means what it should: exactly the Pods of the ordinals below the replica count, one if none is given,
      each running with the identity, the template's spec and the claims. */
  lemma ConvergedMeans(set_: StatefulSet, w: World)
    requires ValidWorld(set_, w) && InRange(set_)
    ensures Converged(set_, w) <==> LooksRight(set_, w)
  {
    hide InOrder, Runs, ValidWorld, Itoa, IsMemberOf;
    forall n: nat | n < Desired(set_) ensures InOrder(set_, w, n) <==> Runs(set_, w, n) {
      InOrderMeans(set_, w, n);
    }
    forall k | k in w.pods
      ensures !Condemned(set_, k) <==> exists n: nat :: n < AskedFor(set_) && k == set_.name + "-" + Itoa(n)
    {
      if !Condemned(set_, k) {
        var n := DesiredOrdinal(set_, w, k);
      }
      if n: nat :| n < AskedFor(set_) && k == set_.name + "-" + Itoa(n) {
        DesiredName(set_, n);
      }
    }
  }

  /** With no Pod on its way out, the reconciliation leaves a world alone exactly when it looks right: so a Pod whose
      spec differs from the template's in anything is not left alone. */
  lemma LeftAloneMeans(set_: StatefulSet, w: World, atOnce: Pod -> bool)
    requires ValidWorld(set_, w) && InRange(set_) && !AnyTerminating(w)
    ensures NextWorld(set_, w, w, atOnce) <==> LooksRight(set_, w)
  {
    hide NextWorld, LooksRight, Converged, ValidWorld, AnyTerminating;
    FixpointIffConverged(set_, w, atOnce);
    ConvergedMeans(set_, w);
  }

  /** An edited template is noticed. */
  lemma OutdatedIsNotLeftAlone(set_: StatefulSet, w: World, n: nat, atOnce: Pod -> bool)
    requires ValidWorld(set_, w) && InRange(set_) && !AnyTerminating(w) && n < AskedFor(set_)
    requires var k := set_.name + "-" + Itoa(n); k in w.pods && w.pods[k].spec.rest != set_.templateSpec.rest
    ensures !NextWorld(set_, w, w, atOnce)
  {
    hide NextWorld, ValidWorld, AnyTerminating;
    LeftAloneMeans(set_, w, atOnce);
    assert !Runs(set_, w, n);
  }

  ghost predicate RightFrom(set_: StatefulSet, ws: nat -> World, n: nat) {
    LooksRight(set_, ws(n)) && forall i: nat | n <= i :: ws(i) == ws(n)
  }

  /** Every fair run from a valid world ends, for good, in a world that looks right. */
  lemma RunsEndRight(set_: StatefulSet, ws: nat -> World, atOnce: Pod -> bool)
    requires IsRun(set_, ws, atOnce) && Fair(set_, ws, atOnce) && ValidWorld(set_, ws(0)) && InRange(set_)
    ensures exists n: nat :: RightFrom(set_, ws, n)
  {
    hide IsRun, Fair, ValidWorld, Converged, LooksRight;
    Convergence(set_, ws, atOnce);
    var n: nat :| SettledFrom(set_, ws, n);
    ChangesBounded(set_, ws, atOnce, n);
    ConvergedMeans(set_, ws(n));
    assert RightFrom(set_, ws, n);
  }

  // ---------------------------------------------------------------- ordering safety, request by request

  /** The controller only looks at Pods with a member name. */
  ghost predicate AllMembers(set_: StatefulSet, pods: seq<Pod>) {
    forall p :: p in pods ==> IsMemberOf(set_.name, p.name)
  }

  /** The Pod of that ordinal, by its printed name. */
  predicate IsAt(set_: StatefulSet, p: Pod, n: nat) {
    p.name == set_.name + "-" + Itoa(n)
  }

  ghost predicate ListedRunning(set_: StatefulSet, pods: seq<Pod>, n: nat) {
    exists p :: p in pods && IsAt(set_, p, n) && !p.terminating
  }

  lemma MemberAt(set_: StatefulSet, p: Pod, n: nat)
    requires IsMemberOf(set_.name, p.name) && n <= MAX_ORDINAL
    ensures IsOrdinal(set_, p, n) <==> IsAt(set_, p, n)
  {
    ParseOfPodName(set_.name, n);
  }

  lemma FoundAt(set_: StatefulSet, pods: seq<Pod>, n: nat)
    requires AllMembers(set_, pods) && n <= MAX_ORDINAL
    ensures match Find(set_, pods, n)
            case None => forall p :: p in pods ==> !IsAt(set_, p, n)
            case Some(p) => p in pods && IsAt(set_, p, n)
  {
    hide IsMemberOf, IsOrdinal, IsAt, Find;
    forall p | p in pods ensures IsOrdinal(set_, p, n) <==> IsAt(set_, p, n) {
      MemberAt(set_, p, n);
    }
  }

  lemma ObservedMeans(set_: StatefulSet, pods: seq<Pod>, n: int)
    requires AllMembers(set_, pods) && Observed(set_, pods, n) && n <= MAX_ORDINAL + 1
    ensures forall j: nat | j < n :: ListedRunning(set_, pods, j)
  {
    hide Find, IsAt, AllMembers;
    forall j: nat | j < n ensures ListedRunning(set_, pods, j) {
      FoundAt(set_, pods, j);
      var p := Find(set_, pods, j);
      assert p.Some? && !p.value.terminating;
    }
  }

  /** A create in order: the Pod is the one the template asks for at some ordinal, all lower ordinals run, its own is
      missing, and its claims are there. */
  ghost predicate CreateInOrder(set_: StatefulSet, pods: seq<Pod>, known: set<string>, pod: Pod) {
    exists n: nat ::
      && n < AskedFor(set_)
      && NamedFor(set_, n, pod) && SpecifiedFor(set_, n, pod) && !pod.terminating
      && SameOtherLabels(set_.templateLabels.GetOr(map[]), pod.labels.value)
      && (forall v :: v in set_.templateSpec.volumes && v.name !in TemplateNames(set_) ==> v in pod.spec.volumes)
      && (forall j: nat | j < n :: ListedRunning(set_, pods, j))
      && (forall p :: p in pods ==> !IsAt(set_, p, n))
      && (forall t :: t in set_.claimTemplates ==> ClaimFor(set_, t, n) in known)
  }

  /** A delete in order: all desired ordinals run, and the Pod is the highest at or above the replica count; or there is
      none of those, and it is the highest whose spec is not the template's. */
  ghost predicate DeleteInOrder(set_: StatefulSet, pods: seq<Pod>, name: string) {
    && (forall j: nat | j < AskedFor(set_) :: ListedRunning(set_, pods, j))
    && (|| HighestSurplus(set_, pods, name)
        || (NoSurplus(set_, pods) && HighestWrong(set_, pods, name)))
  }

  predicate IsSurplus(set_: StatefulSet, p: Pod) {
    OrdinalOf(p.name) >= AskedFor(set_)
  }

  ghost predicate HighestSurplus(set_: StatefulSet, pods: seq<Pod>, name: string) {
    exists p :: p in pods && p.name == name && !p.terminating && IsSurplus(set_, p)
                && forall q :: q in pods && IsSurplus(set_, q) ==> OrdinalOf(q.name) <= OrdinalOf(name)
  }

  ghost predicate NoSurplus(set_: StatefulSet, pods: seq<Pod>) {
    forall q :: q in pods ==> !IsSurplus(set_, q)
  }

  ghost predicate ListedRight(set_: StatefulSet, pods: seq<Pod>, n: nat) {
    exists q :: q in pods && IsAt(set_, q, n) && SpecifiedFor(set_, n, q)
  }

  ghost predicate ListedWrong(set_: StatefulSet, pods: seq<Pod>, n: nat) {
    exists q :: q in pods && IsAt(set_, q, n) && !SpecifiedFor(set_, n, q)
  }

  ghost predicate HighestWrong(set_: StatefulSet, pods: seq<Pod>, name: string) {
    exists n: nat ::
      && n < AskedFor(set_) && name == set_.name + "-" + Itoa(n) && ListedWrong(set_, pods, n)
      && forall j: nat | n < j < AskedFor(set_) :: ListedRight(set_, pods, j)
  }

  lemma CreateMeans(set_: StatefulSet, pods: seq<Pod>, known: set<string>, pod: Pod)
    requires InRange(set_) && AllMembers(set_, pods) && CreateAllowed(set_, pods, known, pod)
    ensures CreateInOrder(set_, pods, known, pod)
  {
    hide Find, AllMembers, IdentityMatches, PodSpecMatches, NamedFor, SpecifiedFor, Observed, IsAt, Itoa;
    var n: nat :| n <= EndOrdinalOf(set_) && Observed(set_, pods, n) && Find(set_, pods, n).None?
                  && BuiltFor(set_, n, pod) && Needed(set_, n) <= known;
    ObservedMeans(set_, pods, n);
    FoundAt(set_, pods, n);
    IdentityMeans(set_, n, pod);
    SpecMeans(set_, n, pod);
    ClaimsMean(set_, known, n);
  }

  lemma CondemnedMeans(set_: StatefulSet, pods: seq<Pod>, p: Pod)
    requires AllMembers(set_, pods) && p in pods
    ensures Condemned(set_, p.name) <==> IsSurplus(set_, p)
  {
    assert IsMemberOf(set_.name, p.name);
    hide ParentNameAndOrdinal;
  }

  lemma OutdatedMeans(set_: StatefulSet, pods: seq<Pod>, n: nat)
    requires AllMembers(set_, pods) && n <= MAX_ORDINAL
    ensures OutdatedAt(set_, pods, n) ==> ListedWrong(set_, pods, n)
    ensures !OutdatedAt(set_, pods, n) && Find(set_, pods, n).Some? ==> ListedRight(set_, pods, n)
  {
    FoundAt(set_, pods, n);
    hide Find, AllMembers, PodSpecMatches, SpecifiedFor, Itoa;
    if Find(set_, pods, n).Some? {
      SpecMeans(set_, n, Find(set_, pods, n).value);
    }
  }

  lemma OutdatedVictimMeans(set_: StatefulSet, pods: seq<Pod>, p: Pod)
    requires InRange(set_) && AllMembers(set_, pods) && Observed(set_, pods, EndOrdinalOf(set_) + 1)
    requires HighestOutdated(set_, pods, p)
    ensures HighestWrong(set_, pods, p.name)
  {
    hide Find, IsOrdinal, AllMembers, OutdatedAt, ListedRight, ListedWrong, Itoa, SpecifiedFor;
    var n :| 0 <= n <= EndOrdinalOf(set_) && OutdatedAt(set_, pods, n) && Find(set_, pods, n) == Some(p)
             && forall j | n < j <= EndOrdinalOf(set_) :: !OutdatedAt(set_, pods, j);
    FoundAt(set_, pods, n);
    OutdatedMeans(set_, pods, n);
    forall j: nat | n < j < AskedFor(set_) ensures ListedRight(set_, pods, j) {
      assert Find(set_, pods, j).Some?;
      OutdatedMeans(set_, pods, j);
    }
  }

  lemma CondemnedVictimMeans(set_: StatefulSet, pods: seq<Pod>, p: Pod)
    requires AllMembers(set_, pods) && HighestCondemned(set_, pods, p) && !p.terminating
    ensures HighestSurplus(set_, pods, p.name)
  {
    hide Condemned, AllMembers, IsSurplus, OrdinalOf;
    CondemnedMeans(set_, pods, p);
    forall q | q in pods && IsSurplus(set_, q) ensures OrdinalOf(q.name) <= OrdinalOf(p.name) {
      CondemnedMeans(set_, pods, q);
    }
  }

  lemma NoneCondemnedMeans(set_: StatefulSet, pods: seq<Pod>)
    requires AllMembers(set_, pods) && NoneCondemned(set_, pods)
    ensures NoSurplus(set_, pods)
  {
    hide Condemned, AllMembers, IsSurplus;
    forall q | q in pods ensures !IsSurplus(set_, q) {
      CondemnedMeans(set_, pods, q);
    }
  }

  lemma DeleteMeans(set_: StatefulSet, pods: seq<Pod>, name: string)
    requires InRange(set_) && AllMembers(set_, pods) && DeleteAllowed(set_, pods, name)
    ensures DeleteInOrder(set_, pods, name)
  {
    hide AllMembers, Observed, HighestCondemned, HighestOutdated, NoneCondemned, HighestSurplus, HighestWrong,
         NoSurplus;
    ObservedMeans(set_, pods, EndOrdinalOf(set_) + 1);
    var p: Pod :| p.name == name && !p.terminating
                  && (|| HighestCondemned(set_, pods, p)
                      || (NoneCondemned(set_, pods) && HighestOutdated(set_, pods, p)));
    if HighestCondemned(set_, pods, p) {
      CondemnedVictimMeans(set_, pods, p);
    } else {
      NoneCondemnedMeans(set_, pods);
      OutdatedVictimMeans(set_, pods, p);
    }
  }

  /** The claim of one of the set's templates at a desired ordinal. */
  ghost predicate ClaimInOrder(set_: StatefulSet, claim: string) {
    exists t, n: nat :: t in set_.claimTemplates && n < AskedFor(set_) && claim == ClaimFor(set_, t, n)
  }

  /** A listed Pod with its identity put right. */
  ghost predicate UpdateInOrder(set_: StatefulSet, pods: seq<Pod>, pod: Pod) {
    exists q, n: nat :: q in pods && IsAt(set_, q, n) && RepairedFrom(set_, n, q, pod)
  }

  /** What a reconciliation may request, in full: repairs of the set's own claims and of listed Pods' identity; and as
      the last request, if at all, one create or one delete, in order. */
  ghost predicate LogInOrder(set_: StatefulSet, pods: seq<Pod>, known: set<string>, requests: seq<Request>) {
    forall i | 0 <= i < |requests| :: RequestInOrder(set_, pods, known, requests[i], i == |requests| - 1)
  }

  ghost predicate RequestInOrder(set_: StatefulSet, pods: seq<Pod>, known: set<string>, r: Request, last: bool) {
    match r
    case CreateClaim(claim) => ClaimInOrder(set_, claim)
    case UpdatePod(pod) => UpdateInOrder(set_, pods, pod)
    case CreatePod(pod) => last && CreateInOrder(set_, pods, known, pod)
    case DeletePod(name) => last && DeleteInOrder(set_, pods, name)
  }

  /** `pod` is `q` with its identity put right. */
  ghost predicate RepairedFrom(set_: StatefulSet, n: nat, q: Pod, pod: Pod) {
    && !NamedFor(set_, n, q) && NamedFor(set_, n, pod)
    && pod == q.(namespace := set_.namespace, labels := pod.labels)
    && SameOtherLabels(q.labels.GetOr(map[]), pod.labels.value)
  }

  lemma RepairMeans(set_: StatefulSet, pods: seq<Pod>, r: Request)
    requires AllMembers(set_, pods) && IsRepair(set_, pods, r)
    ensures (r.CreateClaim? && ClaimInOrder(set_, r.claim)) || (r.UpdatePod? && UpdateInOrder(set_, pods, r.pod))
  {
    if r.CreateClaim? {
      hide Itoa;
      var name, n :| name in TemplateNames(set_) && 0 <= n <= EndOrdinalOf(set_)
                     && r.claim == ClaimName(set_.name, name, n);
      var t :| t in set_.claimTemplates && t.name == name;
      assert r.claim == ClaimFor(set_, t, n);
    } else {
      var q :| q in pods && !IdentityMatches(set_, q) && r.pod == Identified(set_, q);
      MemberIffPrinted(set_.name, q.name);
      var n: nat :| n <= MAX_ORDINAL && q.name == PodName(set_.name, n);
      hide IdentityMatches, Identified, NamedFor, SameOtherLabels, Itoa;
      IdentityMeans(set_, n, q);
      RepairChangesIdentityOnly(set_, n, q);
      assert IsAt(set_, q, n) && RepairedFrom(set_, n, q, r.pod);
    }
  }

  /** Ordering safety means what it should. */
  lemma OrderSafeMeans(set_: StatefulSet, pods: seq<Pod>, known: set<string>, requests: seq<Request>)
    requires InRange(set_) && AllMembers(set_, pods) && OrderSafe(set_, pods, known, requests)
    ensures LogInOrder(set_, pods, known, requests)
  {
    hide AllMembers, IsRepair, CreateAllowed, DeleteAllowed, CreateInOrder, DeleteInOrder, ClaimInOrder, UpdateInOrder;
    var rest := if AllRepairs(set_, pods, requests) then requests else requests[..|requests| - 1];
    forall i | 0 <= i < |rest| ensures IsRepair(set_, pods, requests[i]) {
      assert rest[i] in rest;
    }
    forall i | 0 <= i < |requests|
      ensures RequestInOrder(set_, pods, known, requests[i], i == |requests| - 1)
    {
      if i < |rest| {
        RepairMeans(set_, pods, requests[i]);
      } else if requests[i].CreatePod? {
        CreateMeans(set_, pods, known, requests[i].pod);
      } else {
        DeleteMeans(set_, pods, requests[i].name);
      }
    }
  }
}
