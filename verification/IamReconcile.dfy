/** The reconciler that makes the holders of a resource exactly the desired identities. */
module IamReconcile {

  import opened Wrappers
  import opened Collections
  import opened Iam

  /** What may be seen of the model while reconciling, `start` being the view at the beginning: nobody but initial
      holders and desired identities has access, desired holders never lose it, access elsewhere is untouched,
      and once anybody gained access all undesired access is gone. */
  ghost predicate SafePoint(v: View, start: View, desired: set<IdentityId>, resource: ResourceName) {
    && SameElsewhere(v, start, resource)
    && (forall i :: Access(v, i, resource) ==> Access(start, i, resource) || i in desired)
    && (forall i :: i in desired && Access(start, i, resource) ==> Access(v, i, resource))
    && ((exists i :: Access(v, i, resource) && !Access(start, i, resource)) ==>
          forall i :: Access(v, i, resource) ==> i in desired)
  }

  ghost predicate WellAttached(v: View) {
    forall i :: i in v.identities ==> v.identities[i] <= v.policies.Keys
  }

  /** A policy that may be taken from an identity. */
  predicate Removable(start: View, desired: set<IdentityId>, resource: ResourceName, i: IdentityId, p: PolicyId) {
    i !in desired && p in start.policies && start.policies[p] == resource
  }

  /** `v` differs from `start` only by policies for the resource taken from undesired identities. */
  ghost predicate OnlyDetached(v: View, start: View, desired: set<IdentityId>, resource: ResourceName) {
    && v.policies == start.policies
    && v.identities.Keys == start.identities.Keys
    && (forall i :: i in start.identities ==> v.identities[i] <= start.identities[i])
    && (forall i, p :: i in start.identities && p in start.identities[i] ==>
          p in v.identities[i] || Removable(start, desired, resource, i, p))
  }

  /** Undesired identities hold no policy for the resource. */
  ghost predicate UndesiredGone(v: View, desired: set<IdentityId>, resource: ResourceName) {
    forall i, p :: i in v.identities && i !in desired && p in v.identities[i] && p in v.policies ==>
      v.policies[p] != resource
  }

  /** `base` plus the new policy, attached to the granted identities. */
  function Granted(base: View, granted: set<IdentityId>, resource: ResourceName, policyId: PolicyId): View {
    View(map i | i in base.identities :: if i in granted then base.identities[i] + {policyId} else base.identities[i],
         base.policies[policyId := resource])
  }

  lemma DetachedIsSafe(v: View, start: View, desired: set<IdentityId>, resource: ResourceName)
    requires OnlyDetached(v, start, desired, resource)
    ensures SafePoint(v, start, desired, resource)
  {
  }

  lemma AttachedIsSafe(base: View, granted: set<IdentityId>, start: View, desired: set<IdentityId>,
                       resource: ResourceName,
                       policyId: PolicyId)
    requires WellAttached(base) && OnlyDetached(base, start, desired, resource)
    requires UndesiredGone(base, desired, resource)
    requires policyId !in base.policies && granted <= desired
    ensures var v := Granted(base, granted, resource, policyId);
            && SafePoint(v, start, desired, resource)
            && (forall i :: Access(v, i, resource) ==> i in desired)
            && (forall i :: i in granted && i in base.identities ==> Access(v, i, resource))
  {
    var v := Granted(base, granted, resource, policyId);
    forall i | i in granted && i in base.identities ensures Access(v, i, resource) {
      assert policyId in v.identities[i] && v.policies[policyId] == resource;
    }
    forall i, r | r != resource ensures Access(v, i, r) <==> Access(start, i, r) {
      if Access(v, i, r) {
        var p :| p in v.identities[i] && p in v.policies && v.policies[p] == r;
        assert p in start.identities[i] && p in start.policies;
      }
      if Access(start, i, r) {
        var p :| p in start.identities[i] && p in start.policies && start.policies[p] == r;
        assert !Removable(start, desired, resource, i, p);
        assert p in v.identities[i] && p in v.policies;
      }
    }
  }

  method HasPolicyForResource(policyIds: set<PolicyId>, policies: map<PolicyId, ResourceName>, resource: ResourceName)
    returns (r: bool)
    ensures r <==> exists p :: p in policyIds && p in policies && policies[p] == resource
  {
    var todo := policyIds;
    while todo != {}
      invariant todo <= policyIds
      invariant forall p :: p in policyIds - todo && p in policies ==> policies[p] != resource
    {
      var p :| p in todo;
      if p in policies && policies[p] == resource {
        return true;
      }
      todo := todo - {p};
    }
    return false;
  }

  method IdentitiesWithPolicyForResource(identities: map<IdentityId, set<PolicyId>>, policies: map<PolicyId,
                                         ResourceName>,
                                         resource: ResourceName) returns (matching: seq<IdentityId>)
    ensures forall i :: i in matching <==> Access(View(identities, policies), i, resource)
    ensures NoDuplicates(matching)
  {
    matching := [];
    var todo := identities.Keys;
    while todo != {}
      invariant todo <= identities.Keys
      invariant forall i :: i in matching <==> i !in todo && Access(View(identities, policies), i, resource)
      invariant NoDuplicates(matching)
    {
      var i :| i in todo;
      var has := HasPolicyForResource(identities[i], policies, resource);
      if has {
        matching := matching + [i];
      }
      todo := todo - {i};
    }
  }

  method PoliciesForResource(identities: map<IdentityId, set<PolicyId>>, policies: map<PolicyId, ResourceName>,
                             identity: IdentityId, resource: ResourceName) returns (matching: seq<PolicyId>)
    ensures forall p :: p in matching <==>
              identity in identities && p in identities[identity] && p in policies && policies[p] == resource
    ensures NoDuplicates(matching)
  {
    matching := [];
    var todo := if identity in identities then identities[identity] else {};
    while todo != {}
      invariant identity in identities ==> todo <= identities[identity]
      invariant identity !in identities ==> todo == {}
      invariant forall p :: p in matching <==>
                  && p !in todo && identity in identities && p in identities[identity]
                  && p in policies && policies[p] == resource
      invariant NoDuplicates(matching)
    {
      var p :| p in todo;
      if p in policies && policies[p] == resource {
        matching := matching + [p];
      }
      todo := todo - {p};
    }
  }

  method ContainsIdentity(identities: seq<IdentityId>, target: IdentityId) returns (r: bool)
    ensures r <==> target in identities
  {
    for i := 0 to |identities|
      invariant target !in identities[..i]
    {
      if identities[i] == target {
        return true;
      }
    }
    return false;
  }

  method MissingIdentities(desired: set<IdentityId>, current: seq<IdentityId>) returns (missing: seq<IdentityId>)
    ensures forall i :: i in missing <==> i in desired && i !in current
    ensures NoDuplicates(missing)
  {
    missing := [];
    var todo := desired;
    while todo != {}
      invariant todo <= desired
      invariant forall i :: i in missing <==> i in desired - todo && i !in current
      invariant NoDuplicates(missing)
    {
      var i :| i in todo;
      var has := ContainsIdentity(current, i);
      if !has {
        missing := missing + [i];
      }
      todo := todo - {i};
    }
  }

  ghost predicate HistorySafe(history: seq<View>, from: nat, start: View, desired: set<IdentityId>,
                              resource: ResourceName) {
    from <= |history| && forall k | from <= k < |history| :: SafePoint(history[k], start, desired, resource)
  }

  lemma DetachOne(v': View, v: View, start: View, desired: set<IdentityId>, resource: ResourceName,
                  identity: IdentityId, policyId: PolicyId)
    requires OnlyDetached(v, start, desired, resource)
    requires identity in v.identities && identity !in desired
    requires policyId in v.policies && v.policies[policyId] == resource
    requires v' == v.(identities := v.identities[identity := v.identities[identity] - {policyId}])
    ensures OnlyDetached(v', start, desired, resource)
  {
    assert Removable(start, desired, resource, identity, policyId);
  }

  lemma Remembered(old_: seq<View>, new_: seq<View>, now: View, from: nat, start: View, desired: set<IdentityId>,
                   resource: ResourceName)
    requires HistorySafe(old_, from, start, desired, resource)
    requires new_ == old_ || new_ == old_ + [now]
    requires SafePoint(now, start, desired, resource)
    ensures HistorySafe(new_, from, start, desired, resource) && old_ <= new_
  {
  }

  lemma AttachedRemembered(old_: seq<View>, new_: seq<View>, base: View, granted: set<IdentityId>, from: nat,
                           start: View,
                           desired: set<IdentityId>, resource: ResourceName, policyId: PolicyId)
    requires WellAttached(base) && OnlyDetached(base, start, desired, resource)
    requires UndesiredGone(base, desired, resource)
    requires policyId !in base.policies && granted <= desired
    requires HistorySafe(old_, from, start, desired, resource)
    requires new_ == old_ || new_ == old_ + [Granted(base, granted, resource, policyId)]
    ensures HistorySafe(new_, from, start, desired, resource) && old_ <= new_
  {
    AttachedIsSafe(base, granted, start, desired, resource, policyId);
    Remembered(old_, new_, Granted(base, granted, resource, policyId), from, start, desired, resource);
  }

  /** The inner loop: detach every policy for the resource from one undesired identity. */
  method DetachAll(s: State, identity: IdentityId, policyIds: seq<PolicyId>, ghost start: View, ghost from: nat,
                   ghost desired: set<IdentityId>, resource: ResourceName) returns (err: Option<IamError>)
    requires s.Valid() && OnlyDetached(s.Now(), start, desired, resource)
    requires HistorySafe(s.history, from, start, desired, resource)
    requires identity in s.identities && identity !in desired && NoDuplicates(policyIds)
    requires forall p :: p in policyIds <==> p in s.identities[identity] && p in s.policies && s.policies[p] == resource
    modifies s
    ensures err == None
    ensures s.Valid() && OnlyDetached(s.Now(), start, desired, resource)
    ensures HistorySafe(s.history, from, start, desired, resource) && old(s.history) <= s.history
    ensures s.usedPolicyIds == old(s.usedPolicyIds)
    ensures identity in s.identities && s.identities == old(s.identities)[identity := s.identities[identity]]
    ensures forall p :: p in s.identities[identity] && p in s.policies ==> s.policies[p] != resource
  {
    hide HistorySafe, OnlyDetached, SafePoint;
    ghost var held := s.identities[identity];
    for j := 0 to |policyIds|
      invariant s.Valid() && OnlyDetached(s.Now(), start, desired, resource)
      invariant HistorySafe(s.history, from, start, desired, resource) && old(s.history) <= s.history
      invariant s.usedPolicyIds == old(s.usedPolicyIds) && s.policies == old(s.policies)
      invariant identity in s.identities && s.identities == old(s.identities)[identity := s.identities[identity]]
      invariant s.identities[identity] == held - set p | p in policyIds[..j]
    {
      ghost var v, history := s.Now(), s.history;
      assert policyIds[j] in policyIds && policyIds[j] !in policyIds[..j];
      var err' := s.DetachIdentityPolicy(identity, policyIds[j]);
      if err'.Some? {
        return err';
      }
      DetachOne(s.Now(), v, start, desired, resource, identity, policyIds[j]);
      DetachedIsSafe(s.Now(), start, desired, resource);
      Remembered(history, s.history, s.Now(), from, start, desired, resource);
      assert policyIds[..j + 1] == policyIds[..j] + [policyIds[j]];
    }
    assert policyIds[..|policyIds|] == policyIds;
    return None;
  }

  lemma GrantOne(base: View, granted: set<IdentityId>, resource: ResourceName, policyId: PolicyId, identity: IdentityId)
    requires identity in base.identities
    ensures var v := Granted(base, granted, resource, policyId);
            Granted(base, granted + {identity}, resource, policyId)
            == v.(identities := v.identities[identity := v.identities[identity] + {policyId}])
  {
  }

  method AttachOne(s: State, identity: IdentityId, policyId: PolicyId, ghost base: View, ghost granted: set<IdentityId>,
                   ghost resource: ResourceName) returns (err: Option<IamError>)
    requires s.Valid() && s.Now() == Granted(base, granted, resource, policyId)
    modifies s
    ensures s.Valid()
    ensures err == None <==> identity in base.identities
    ensures s.Now() == Granted(base, if err == None then granted + {identity} else granted, resource, policyId)
    ensures s.history == old(s.history) || s.history == old(s.history) + [s.Now()]
  {
    err := s.AttachIdentityPolicy(identity, policyId);
    if err == None {
      GrantOne(base, granted, resource, policyId, identity);
    }
  }

  /** The last loop: attach the new policy to the missing identities until one is unknown. */
  method AttachAll(s: State, missing: seq<IdentityId>, policyId: PolicyId, ghost base: View, ghost start: View,
                   ghost from: nat, ghost desired: set<IdentityId>, resource: ResourceName)
    returns (err: Option<IamError>, ghost granted: set<IdentityId>)
    requires s.Valid() && WellAttached(base) && OnlyDetached(base, start, desired, resource)
    requires UndesiredGone(base, desired, resource) && policyId !in base.policies
    requires s.Now() == Granted(base, {}, resource, policyId)
    requires HistorySafe(s.history, from, start, desired, resource)
    requires forall i :: i in missing ==> i in desired
    modifies s
    ensures s.Valid() && granted <= desired && s.Now() == Granted(base, granted, resource, policyId)
    ensures err == None <==> forall i :: i in missing ==> i in base.identities
    ensures err == None ==> granted == set i | i in missing
    ensures HistorySafe(s.history, from, start, desired, resource) && old(s.history) <= s.history
  {
    hide HistorySafe, Granted, OnlyDetached, UndesiredGone, WellAttached, State.Valid;
    granted := {};
    for k := 0 to |missing|
      invariant s.Valid() && s.Now() == Granted(base, granted, resource, policyId)
      invariant granted == (set i | i in missing[..k]) && granted <= desired && granted <= base.identities.Keys
      invariant HistorySafe(s.history, from, start, desired, resource) && old(s.history) <= s.history
    {
      ghost var history := s.history;
      assert missing[k] in missing;
      err := AttachOne(s, missing[k], policyId, base, granted, resource);
      if err.Some? {
        AttachedRemembered(history, s.history, base, granted, from, start, desired, resource, policyId);
        return err, granted;
      }
      granted := granted + {missing[k]};
      AttachedRemembered(history, s.history, base, granted, from, start, desired, resource, policyId);
      assert missing[..k + 1] == missing[..k] + [missing[k]];
    }
    assert missing[..|missing|] == missing;
    return None, granted;
  }

  /** The tail of the reconciler: one new policy, attached to every missing identity. */
  method AttachMissing(s: State, missing: seq<IdentityId>, ghost start: View, ghost from: nat,
                       ghost desired: set<IdentityId>, resource: ResourceName, drawn: PolicyId)
    returns (err: Option<IamError>)
    requires s.Valid() && drawn !in s.usedPolicyIds && missing != []
    requires OnlyDetached(s.Now(), start, desired, resource) && UndesiredGone(s.Now(), desired, resource)
    requires HistorySafe(s.history, from, start, desired, resource)
    requires forall i :: i in missing ==> i in desired
    modifies s
    ensures s.Valid()
    ensures err == None <==> resource != "" && forall i :: i in missing ==> i in old(s.identities)
    ensures err == None ==> forall i :: i in missing ==> Access(s.Now(), i, resource)
    ensures SafePoint(s.Now(), start, desired, resource)
    ensures forall i :: Access(s.Now(), i, resource) ==> i in desired
    ensures HistorySafe(s.history, from, start, desired, resource) && old(s.history) <= s.history
  {
    ghost var base, before := s.Now(), s.history;
    var created := s.CreatePolicy(resource, drawn);
    if created.Err? {
      DetachedIsSafe(base, start, desired, resource);
      return Some(created.error);
    }
    var policyId := created.value;
    assert s.Now() == Granted(base, {}, resource, policyId);
    AttachedRemembered(before, s.history, base, {}, from, start, desired, resource, policyId);
    ghost var granted;
    err, granted := AttachAll(s, missing, policyId, base, start, from, desired, resource);
    AttachedIsSafe(base, granted, start, desired, resource, policyId);
  }

  /** Every view the reconciler leaves in the history is safe, whatever it returns; it succeeds exactly when nobody is
      missing or every desired identity exists and the resource has a name; success means exact access. */
  method ReconcileIdentityAccess(s: State, desired: set<IdentityId>, resource: ResourceName, drawn: PolicyId)
    returns (err: Option<IamError>)
    requires s.Valid() && drawn !in s.usedPolicyIds
    modifies s
    ensures s.Valid()
    ensures err == None <==> (forall i :: i in desired ==> Access(old(s.Now()), i, resource))
                             || (resource != "" && desired <= old(s.identities.Keys))
    ensures err == None ==> forall i :: Access(s.Now(), i, resource) <==> i in desired
    ensures SafePoint(s.Now(), old(s.Now()), desired, resource)
    ensures forall i :: Access(s.Now(), i, resource) ==> i in desired
    ensures old(s.history) <= s.history
    ensures HistorySafe(s.history, |old(s.history)|, old(s.Now()), desired, resource)
  {
    ghost var start, from := s.Now(), |s.history|;
    var seen := s.Snapshot();
    var current := IdentitiesWithPolicyForResource(seen.identities, seen.policies, resource);
    DetachedIsSafe(start, start, desired, resource);
    for k := 0 to |current|
      invariant s.Valid() && OnlyDetached(s.Now(), start, desired, resource)
      invariant HistorySafe(s.history, from, start, desired, resource) && old(s.history) <= s.history
      invariant s.usedPolicyIds == old(s.usedPolicyIds)
      invariant forall i :: i in start.identities && i !in current[..k] ==> s.identities[i] == start.identities[i]
      invariant forall i, p ::
                  i in current[..k] && i !in desired && i in s.identities && p in s.identities[i] && p in s.policies
                  ==> s.policies[p] != resource
    {
      var identity := current[k];
      assert current[..k + 1] == current[..k] + [identity];
      assert identity in current && identity !in current[..k];
      if identity in desired {
        continue;
      }
      var policyIds := PoliciesForResource(seen.identities, seen.policies, identity, resource);
      var failed := DetachAll(s, identity, policyIds, start, from, desired, resource);
      if failed.Some? {
        return failed;
      }
    }
    assert current[..|current|] == current;
    ghost var base := s.Now();
    assert UndesiredGone(base, desired, resource);
    var missing := MissingIdentities(desired, current);
    DetachedIsSafe(base, start, desired, resource);
    assert forall i :: i in desired ==> (Access(start, i, resource) <==> i !in missing);
    if |missing| == 0 {
      return None;
    }
    assert missing[0] in missing;
    assert desired <= start.identities.Keys <==> forall i :: i in missing ==> i in start.identities;
    err := AttachMissing(s, missing, start, from, desired, resource, drawn);
  }
}
