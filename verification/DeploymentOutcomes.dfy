/** What a rollout leaves, in terms of templates, owners and replica counts alone. */
module DeploymentOutcomes {

  import opened Wrappers
  import opened Deployments

  /** The same Pods: all labels but the hash label agree, and so does the rest of the template. */
  ghost predicate SameTemplate(d: Deployment, rs: ReplicaSet) {
    && rs.template.rest == d.template.rest
    && forall key :: key != "pod-template-hash" ==>
         && (key in rs.template.labels <==> key in d.template.labels)
         && (key in d.template.labels ==> rs.template.labels[key] == d.template.labels[key])
  }

  lemma MatchesMeans(d: Deployment, rs: ReplicaSet)
    ensures Matches(d, rs) <==> SameTemplate(d, rs)
  {
    var a, b := rs.template.labels - {HASH_LABEL}, d.template.labels - {HASH_LABEL};
    if Matches(d, rs) {
      forall key | key != "pod-template-hash"
        ensures key in rs.template.labels <==> key in d.template.labels
        ensures key in d.template.labels ==> rs.template.labels[key] == d.template.labels[key]
      {
        assert key in a <==> key in b;
        assert key in a ==> a[key] == b[key];
      }
    }
    if SameTemplate(d, rs) {
      assert a == b;
    }
  }

  /** A missing count of a ReplicaSet is none, a missing count of a Deployment is one. */
  function Count(rs: ReplicaSet): int {
    match rs.replicas case None => 0 case Some(n) => n
  }

  function AskedFor(d: Deployment): int {
    match d.replicas case None => 1 case Some(n) => n
  }

  /** The place in the lister's order of the first owned ReplicaSet with the template. */
  ghost predicate FirstAt(d: Deployment, all: seq<ReplicaSet>, i: nat) {
    && i < |all| && all[i].owner == Some(d.uid) && SameTemplate(d, all[i])
    && forall j | 0 <= j < i :: !(all[j].owner == Some(d.uid) && SameTemplate(d, all[j]))
  }

  lemma {:induction false} OwnedConcat(d: Deployment, a: seq<ReplicaSet>, last: ReplicaSet)
    ensures Owned(d, a + [last]) == Owned(d, a) + if last.owner == Some(d.uid) then [last] else []
  {
    assert (a + [last])[..|a|] == a;
  }

  lemma {:induction false} FindNewConcat(d: Deployment, a: seq<ReplicaSet>, last: ReplicaSet)
    ensures FindNew(d, a + [last]) == if FindNew(d, a).Some? then FindNew(d, a)
                                      else if Matches(d, last) then Some(last) else None
  {
    hide Matches;
    if a == [] {
      assert a + [last] == [last];
      assert FindNew(d, [last][1..]) == None;
    } else {
      assert (a + [last])[1..] == a[1..] + [last];
      FindNewConcat(d, a[1..], last);
    }
  }

  /** Searching finds exactly the first owned ReplicaSet with the template. */
  lemma {:induction false} FindNewMeans(d: Deployment, all: seq<ReplicaSet>)
    ensures match FindNew(d, Owned(d, all))
            case None => forall i: nat :: !FirstAt(d, all, i)
            case Some(rs) => exists i: nat :: FirstAt(d, all, i) && all[i] == rs
    ensures FindNew(d, Owned(d, all)).None? ==>
              forall i | 0 <= i < |all| :: !(all[i].owner == Some(d.uid) && SameTemplate(d, all[i]))
  {
    hide SameTemplate, Matches, FindNew, Owned;
    if all == [] {
      NothingFound(d);
    } else {
      var init, last := all[..|all| - 1], all[|all| - 1];
      assert all == init + [last];
      FindNewMeans(d, init);
      OwnedConcat(d, init, last);
      FindNewConcat(d, Owned(d, init), last);
      assert Owned(d, init) + [] == Owned(d, init);
      MatchesMeans(d, last);
      if FindNew(d, Owned(d, init)).Some? {
        var i: nat :| FirstAt(d, init, i) && init[i] == FindNew(d, Owned(d, init)).value;
        assert FirstAt(d, all, i) && all[i] == init[i];
      } else if last.owner == Some(d.uid) && SameTemplate(d, last) {
        assert FirstAt(d, all, |init|);
      }
    }
  }

  lemma NothingFound(d: Deployment)
    ensures FindNew(d, Owned(d, [])) == None
  {
  }

  /** An owned ReplicaSet with the template is there, or the name of a new one is free. */
  ghost predicate NameIsFree(d: Deployment, w: World, hash: Template -> string) {
    || (exists k :: k in w.sets && w.sets[k].owner == Some(d.uid) && SameTemplate(d, w.sets[k]))
    || d.name + "-" + hash(d.template) !in w.sets
  }

  /** Where a rollout puts all replicas: at the first match of the lister's order, or at a new ReplicaSet. */
  ghost predicate IsTarget(d: Deployment, w: World, all: seq<ReplicaSet>, hash: Template -> string, c: string) {
    || (exists i: nat :: FirstAt(d, all, i) && c == all[i].name)
    || ((forall k :: k in w.sets ==> !(w.sets[k].owner == Some(d.uid) && SameTemplate(d, w.sets[k])))
        && c == d.name + "-" + hash(d.template))
  }

  /** After a rollout: the target has the template and all replicas, every other owned ReplicaSet has none and is
      otherwise as it was, and what the Deployment does not own is untouched. */
  lemma RolloutOutcome(d: Deployment, w: World, all: seq<ReplicaSet>, hash: Template -> string) returns (c: string)
    requires Lists(w, all) && NameIsFree(d, w, hash)
    ensures IsTarget(d, w, all, hash, c)
    ensures var w' := RolledOut(w, d, Owned(d, all), hash);
            && w'.sets.Keys == w.sets.Keys + {c}
            && w'.sets[c].owner == Some(d.uid) && SameTemplate(d, w'.sets[c]) && Count(w'.sets[c]) == AskedFor(d)
            && forall k :: k in w.sets && k != c ==>
                 if w.sets[k].owner == Some(d.uid)
                 then Count(w'.sets[k]) == 0
                      && w'.sets[k] == w.sets[k].(replicas := w'.sets[k].replicas, rv := w'.sets[k].rv)
                 else w'.sets[k] == w.sets[k]
  {
    hide RolledOut, Owned, FindNew, Matches, SameTemplate, DistinctNames;
    FindNewMeans(d, all);
    c := Chosen(d, Owned(d, all), hash);
    if FindNew(d, Owned(d, all)).None? {
      forall k | k in w.sets ensures !(w.sets[k].owner == Some(d.uid) && SameTemplate(d, w.sets[k])) {
        assert w.sets[k] in all;
      }
    }
    assert NoCollision(d, w, Owned(d, all), hash);
    var w' := RolledOut(w, d, Owned(d, all), hash);
    ChosenAfter(d, w, all, hash);
    MatchesMeans(d, w'.sets[c]);
    forall k | k != c
      ensures k in w'.sets <==> k in w.sets
      ensures k in w.sets ==> w'.sets[k] == w.sets[k].(replicas := w'.sets[k].replicas, rv := w'.sets[k].rv)
      ensures k in w.sets && w.sets[k].owner == Some(d.uid) ==> Count(w'.sets[k]) == 0
      ensures k in w.sets && w.sets[k].owner != Some(d.uid) ==> w'.sets[k] == w.sets[k]
    {
      OthersAfter(d, w, all, hash, k);
    }
  }

  /** A new ReplicaSet carries the hash in its name and as a label. */
  lemma NewReplicaSetMeans(d: Deployment, hash: Template -> string)
    ensures var rs := NewReplicaSet(d, hash);
            && rs.name == d.name + "-" + hash(d.template) && rs.owner == Some(d.uid)
            && SameTemplate(d, rs) && rs.replicas == Some(AskedFor(d))
            && "pod-template-hash" in rs.template.labels
            && rs.template.labels["pod-template-hash"] == hash(d.template)
  {
  }
}
