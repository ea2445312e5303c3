/** What a ReplicaSet sync does to the numbers and which Pods it gives up, counted on the Pods themselves. */
module ReplicaSetOutcomes {

  import opened Wrappers
  import opened Collections
  import opened ReplicaSets

  /** The places of the active Pods of a list that are on the node. */
  ghost function ActiveOn(pods: seq<Pod>, node: string): set<nat> {
    set i: nat | i < |pods| && !pods[i].terminating && pods[i].node == node
  }

  lemma ActiveOnGrows(pods: seq<Pod>, last: Pod, node: string)
    ensures var all := pods + [last];
            if !last.terminating && last.node == node
            then ActiveOn(all, node) == ActiveOn(pods, node) + {|pods|} && |pods| !in ActiveOn(pods, node)
            else ActiveOn(all, node) == ActiveOn(pods, node)
  {
    assert forall i | 0 <= i < |pods| :: (pods + [last])[i] == pods[i];
  }

  lemma {:induction false} OnNodeMeans(pods: seq<Pod>, node: string)
    ensures OnNode(pods, node) == |ActiveOn(pods, node)|
  {
    if pods == [] {
      assert ActiveOn(pods, node) == {};
    } else {
      hide ActiveOn;
      var init, last := pods[..|pods| - 1], pods[|pods| - 1];
      OnNodeMeans(init, node);
      ActiveOnGrows(init, last, node);
      assert pods == init + [last];
    }
  }

  function LiveNames(pods: map<string, Pod>): set<string> {
    set k | k in pods && !pods[k].terminating
  }

  /** The list holds what the related ReplicaSets with a usable selector match, one Pod for each UID. */
  ghost predicate Matched(related: seq<Related>, pods: seq<Pod>) {
    && (forall i, j | 0 <= i < j < |pods| :: pods[i].uid != pods[j].uid)
    && (forall p :: p in pods ==> MatchedBySome(related, p))
    && forall p :: MatchedBySome(related, p) ==> exists q :: q in pods && q.uid == p.uid
  }

  ghost predicate MatchedBySome(related: seq<Related>, p: Pod) {
    exists i | 0 <= i < |related| :: MatchedBy(related[i], p)
  }

  ghost predicate MatchedBy(r: Related, p: Pod) {
    exists ps :: r.matched == Some(Ok(ps)) && p in ps
  }

  lemma RelatesMeans(related: seq<Related>, pods: seq<Pod>)
    requires Relates(related, pods)
    ensures Matched(related, pods)
  {
    forall p ensures MatchedBySome(related, p) <==> ListedBy(related, |related|, p) {
      if i :| 0 <= i < |related| && related[i].matched.Some? && related[i].matched.value.Ok?
              && p in related[i].matched.value.value {
        assert related[i].matched == Some(Ok(related[i].matched.value.value));
        assert MatchedBy(related[i], p);
      }
    }
    forall p | MatchedBySome(related, p) ensures exists q :: q in pods && q.uid == p.uid {
      assert p.uid in Uids(pods);
    }
  }

  /** The victims are live, as many as asked for, and no live Pod that is spared goes before one of them, each ranked by
      the active related Pods on its node. */
  lemma VictimsMean(related: seq<Related>, before: Order, pods: map<string, Pod>, n: nat, victims: set<string>)
    returns (relatedPods: seq<Pod>)
    requires Filed(pods) && FirstVictims(related, before, pods, n, victims)
    ensures victims <= LiveNames(pods) && |victims| == n && Matched(related, relatedPods)
    ensures forall v, k :: v in victims && k in LiveNames(pods) - victims ==>
              !before(pods[k], |ActiveOn(relatedPods, pods[k].node)|, pods[v], |ActiveOn(relatedPods, pods[v].node)|)
  {
    hide Relates, Matched, OnNode;
    var sorted: seq<Pod>;
    relatedPods, sorted :| Relates(related, relatedPods) && Picks(relatedPods, before, pods, sorted, n, victims);
    RelatesMeans(related, relatedPods);
    VictimsAreLive(related, before, pods, n, victims);
    forall v, k | v in victims && k in LiveNames(pods) - victims
      ensures !before(pods[k], |ActiveOn(relatedPods, pods[k].node)|, pods[v], |ActiveOn(relatedPods, pods[v].node)|)
    {
      OnNodeMeans(relatedPods, pods[k].node);
      OnNodeMeans(relatedPods, pods[v].node);
      SparedIsLater(relatedPods, before, pods, sorted, n, victims, v, k);
    }
  }

  lemma SparedIsLater(relatedPods: seq<Pod>, before: Order, pods: map<string, Pod>, sorted: seq<Pod>, n: nat,
                      victims: set<string>, v: string, k: string)
    requires Filed(pods) && Picks(relatedPods, before, pods, sorted, n, victims)
    requires v in victims && k in LiveNames(pods) - victims
    ensures v in pods && !GoesBefore(before, relatedPods, pods[k], pods[v])
  {
    hide GoesBefore;
    var p :| p in sorted[..n] && p.name == v;
    var i :| 0 <= i < n && sorted[i] == p;
    assert sorted[i] in sorted && pods[v] == p;
    assert pods[k] in sorted;
    var j :| 0 <= j < |sorted| && sorted[j] == pods[k];
    assert forall m | 0 <= m < n :: sorted[m] in sorted[..n] && sorted[m].name in victims;
  }

  /** One sync on the numbers: too few live Pods become as many more as the burst allows, too many as many fewer, and
      nobody else is touched. */
  lemma SyncStepMeans(rs: ReplicaSet, burst: nat, related: seq<Related>, before: Order,
                      pods: map<string, Pod>, pods': map<string, Pod>)
    requires rs.replicas >= 0 && SyncStep(rs, burst, related, before, pods, pods')
    ensures var live, live' := LiveNames(pods), LiveNames(pods');
            if |live| <= rs.replicas
            then
              && |live'| == (if |live| + burst < rs.replicas then |live| + burst else rs.replicas)
              && (forall k :: k in pods ==> k in pods' && pods'[k] == pods[k])
              && (forall k :: k in pods' && k !in pods ==> pods'[k].node == rs.templateNode && !pods'[k].terminating)
            else
              && |live'| == (if |live| - burst > rs.replicas then |live| - burst else rs.replicas)
              && live' <= live && pods'.Keys <= pods.Keys
              && (forall k :: k in pods && k !in live - live' ==> k in pods' && pods'[k] == pods[k])
              && (forall k :: k in live - live' && k in pods' ==> pods'[k] == pods[k].(terminating := true))
  {
    hide FirstVictims;
    assert Live(pods) == LiveNames(pods) && Live(pods') == LiveNames(pods');
    if |Live(pods)| > rs.replicas {
      var quota := Quota(|Live(pods)|, rs.replicas, burst);
      var victims :| FirstVictims(related, before, pods, quota, victims) && Thinned(pods, pods', victims);
      VictimsAreLive(related, before, pods, quota, victims);
      ThinnedCount(pods, pods', victims);
      assert LiveNames(pods) - LiveNames(pods') == victims;
    }
  }
}
