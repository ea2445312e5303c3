/** The local IAM model: identities, allow policies, and who may use which resource. */
module Iam {

  import opened Wrappers

  type IdentityId = string
  type ResourceName = string
  type PolicyId = string

  datatype IamError = InvalidId | AlreadyExists | NotFound

  datatype View = View(identities: map<IdentityId, set<PolicyId>>, policies: map<PolicyId, ResourceName>)

  /** `identity` holds a policy for `resource`. */
  ghost predicate Access(v: View, identity: IdentityId, resource: ResourceName) {
    identity in v.identities
    && exists p :: p in v.identities[identity] && p in v.policies && v.policies[p] == resource
  }

  ghost predicate SameElsewhere(v: View, before: View, resource: ResourceName) {
    && v.identities.Keys == before.identities.Keys
    && (forall i, r :: r != resource ==> (Access(v, i, r) <==> Access(before, i, r)))
  }

  class State {
    var identities: map<IdentityId, set<PolicyId>>
    var policies: map<PolicyId, ResourceName>
    var usedPolicyIds: set<PolicyId>
    /** Every view this object went through, latest last. */
    ghost var history: seq<View>

    ghost predicate Valid()
      reads this
    {
      && history != [] && history[|history| - 1] == Now()
      && policies.Keys <= usedPolicyIds
      && (forall i :: i in identities ==> identities[i] <= policies.Keys)
      && (forall p :: p in policies ==> policies[p] != "")
    }

    function Now(): View
      reads this
    {
      View(identities, policies)
    }

    constructor ()
      ensures Valid() && Now() == View(map[], map[]) && usedPolicyIds == {}
    {
      identities, policies, usedPolicyIds := map[], map[], {};
      history := [View(map[], map[])];
    }

    method CreateIdentity(id: IdentityId) returns (err: Option<IamError>)
      requires Valid()
      modifies this
      ensures Valid()
      ensures err == if id == "" then Some(InvalidId) else if id in old(identities) then Some(AlreadyExists) else None
      ensures identities == if err.None? then old(identities)[id := {}] else old(identities)
      ensures policies == old(policies) && usedPolicyIds == old(usedPolicyIds)
    {
      if id == "" {
        return Some(InvalidId);
      }
      if id in identities {
        return Some(AlreadyExists);
      }
      identities := identities[id := {}];
      history := history + [Now()];
      return None;
    }

    method Snapshot() returns (v: View)
      ensures v == Now()
    {
      v := View(identities, policies);
    }

    /** `drawn` is the random id, drawn again until unused. */
    method CreatePolicy(resource: ResourceName, drawn: PolicyId) returns (r: Result<PolicyId, IamError>)
      requires Valid() && drawn !in usedPolicyIds
      modifies this
      ensures Valid()
      ensures identities == old(identities)
      ensures resource == "" ==> r == Err(InvalidId) && policies == old(policies) && usedPolicyIds == old(usedPolicyIds)
                                 && history == old(history)
      ensures resource != "" ==> r == Ok(drawn) && policies == old(policies)[drawn := resource]
                                 && usedPolicyIds == old(usedPolicyIds) + {drawn} && history == old(history) + [Now()]
    {
      if resource == "" {
        return Err(InvalidId);
      }
      usedPolicyIds := usedPolicyIds + {drawn};
      policies := policies[drawn := resource];
      history := history + [Now()];
      return Ok(drawn);
    }

    method AttachIdentityPolicy(identity: IdentityId, policyId: PolicyId) returns (err: Option<IamError>)
      requires Valid()
      modifies this
      ensures Valid()
      ensures policies == old(policies) && usedPolicyIds == old(usedPolicyIds)
      ensures err == if identity in old(identities) && policyId in policies then None else Some(NotFound)
      ensures identities == if err.None? then old(identities)[identity := old(identities)[identity] + {policyId}]
                            else old(identities)
      ensures history == old(history) || history == old(history) + [Now()]
    {
      if identity !in identities {
        return Some(NotFound);
      }
      if policyId !in policies {
        return Some(NotFound);
      }
      var policyIds := identities[identity];
      if policyId in policyIds {
        assert policyIds + {policyId} == policyIds;
        return None;
      }
      identities := identities[identity := policyIds + {policyId}];
      history := history + [Now()];
      return None;
    }

    method DetachIdentityPolicy(identity: IdentityId, policyId: PolicyId) returns (err: Option<IamError>)
      requires Valid()
      modifies this
      ensures Valid()
      ensures policies == old(policies) && usedPolicyIds == old(usedPolicyIds)
      ensures err == if identity in old(identities) && policyId in policies && policyId in old(identities)[identity]
                     then None else Some(NotFound)
      ensures identities == if err.None? then old(identities)[identity := old(identities)[identity] - {policyId}]
                            else old(identities)
      ensures history == old(history) || history == old(history) + [Now()]
    {
      if identity !in identities {
        return Some(NotFound);
      }
      if policyId !in policies {
        return Some(NotFound);
      }
      var policyIds := identities[identity];
      if policyId !in policyIds {
        return Some(NotFound);
      }
      identities := identities[identity := policyIds - {policyId}];
      history := history + [Now()];
      return None;
    }
  }
}
