/** The ReplicaSet controller: slow-start batches, the choice of Pods to delete, and one burst-limited sync. */
module ReplicaSets {

  import opened Wrappers
  import opened Collections

  datatype Pod = Pod(name: string, uid: nat, node: string, terminating: bool)

  datatype ApiError = NamespaceTerminating | NotFound | Conflict | OtherError(code: nat)

  /** What becomes of a request: carried out, carried out but the answer lost, or refused. */
  datatype Outcome = Fine | AnswerLost(code: nat) | Refused(code: nat) | NamespaceGoing

  /** The ReplicaSet's Pods as the server holds them. `script` decides what becomes of each request, `pick` draws an
      unused name for a generated one, and `atOnce` tells whether a deleted Pod goes at once. */
  class Api {
    var pods: map<string, Pod>
    var uids: nat
    var calls: nat
    const script: nat -> Outcome
    const pick: set<string> -> string
    const atOnce: Pod -> bool

    ghost predicate Valid()
      reads this
    {
      && Filed(pods)
      && forall used :: pick(used) !in used
    }

    ghost predicate Faultless() {
      forall i :: script(i) == Fine
    }

    /** The namespace is not on its way out, in which case refused creates count as successes. */
    ghost predicate NamespaceStays() {
      forall i :: script(i) != NamespaceGoing
    }

    constructor (pods: map<string, Pod>, uids: nat, script: nat -> Outcome, pick: set<string> -> string,
                 atOnce: Pod -> bool)
      requires Filed(pods) && forall used :: pick(used) !in used
      ensures Valid() && this.pods == pods && this.script == script && calls == 0
    {
      this.pods, this.uids, calls := pods, uids, 0;
      this.script, this.pick, this.atOnce := script, pick, atOnce;
    }

    method CreatePod(node: string) returns (err: Option<ApiError>)
      requires Valid()
      modifies this
      ensures Valid() && calls == old(calls) + 1
      ensures err == Answer(script(old(calls)))
      ensures Grown(old(pods), pods, if IsDone(script(old(calls))) then 1 else 0, node)
    {
      var outcome := script(calls);
      calls := calls + 1;
      if IsDone(outcome) {
        var name := pick(pods.Keys);
        ghost var before := pods;
        pods := pods[name := Pod(name, uids, node, false)];
        uids := uids + 1;
        assert Live(pods) == Live(before) + {name};
      }
      return Answer(outcome);
    }

    /** Deletes by name with a UID precondition. */
    method DeletePod(name: string, uid: nat) returns (err: Option<ApiError>)
      requires Valid()
      modifies this
      ensures Valid() && calls == old(calls) + 1
      ensures pods == old(pods) || (Holds(old(pods), name, uid) && IsGone(old(pods), pods, name))
      ensures err == None ==> Holds(old(pods), name, uid) && IsGone(old(pods), pods, name)
      ensures err == Some(NotFound) ==> name !in old(pods)
      ensures script(old(calls)) == Fine && Holds(old(pods), name, uid) ==> err == None
    {
      var outcome := script(calls);
      calls := calls + 1;
      if !IsDone(outcome) {
        return Answer(outcome);
      }
      if name !in pods {
        return Some(NotFound);
      }
      if pods[name].uid != uid {
        return Some(Conflict);
      }
      if atOnce(pods[name]) {
        pods := pods - {name};
      } else {
        pods := pods[name := pods[name].(terminating := true)];
      }
      return Answer(outcome);
    }
  }

  predicate IsDone(o: Outcome) {
    o.Fine? || o.AnswerLost?
  }

  function Answer(o: Outcome): Option<ApiError> {
    match o
    case Fine => None
    case AnswerLost(code) => Some(OtherError(code))
    case Refused(code) => Some(OtherError(code))
    case NamespaceGoing => Some(NamespaceTerminating)
  }

  predicate Filed(pods: map<string, Pod>) {
    forall k :: k in pods ==> pods[k].name == k
  }

  function Live(pods: map<string, Pod>): set<string> {
    set k | k in pods && !pods[k].terminating
  }

  predicate Holds(pods: map<string, Pod>, name: string, uid: nat) {
    name in pods && pods[name].uid == uid
  }

  /** `n` new live Pods from the template, and the others as they were. */
  ghost predicate Grown(pods: map<string, Pod>, pods': map<string, Pod>, n: nat, node: string) {
    && (forall k :: k in pods ==> k in pods' && pods'[k] == pods[k])
    && (forall k :: k in pods' && k !in pods ==> pods'[k] == Pod(k, pods'[k].uid, node, false))
    && |Live(pods')| == |Live(pods)| + n
  }

  /** One Pod removed or made terminating, and the others as they were. */
  ghost predicate IsGone(pods: map<string, Pod>, pods': map<string, Pod>, name: string) {
    && (name in pods' ==> name in pods && pods'[name] == pods[name].(terminating := true))
    && forall k :: k != name ==> (k in pods <==> k in pods') && (k in pods ==> pods'[k] == pods[k])
  }

  // ---------------------------------------------------------------- slow start

  /** A call of the batch function succeeds when the Pod was created or the namespace is being deleted anyway. */
  predicate Succeeds(o: Outcome) {
    o.Fine? || o.NamespaceGoing?
  }

  function Count(holds: Outcome -> bool, script: nat -> Outcome, from: nat, to: nat): (n: nat)
    requires from <= to
    ensures n <= to - from
  {
    if from == to then 0
    else Count(holds, script, from, to - 1) + if holds(script(to - 1)) then 1 else 0
  }

  function Successes(script: nat -> Outcome, from: nat, to: nat): (n: nat)
    requires from <= to
    ensures n <= to - from
  {
    Count(Succeeds, script, from, to)
  }

  /** The size of the k-th batch when enough calls remain. */
  function Doubled(initial: nat, k: nat): nat {
    if k == 0 then initial else 2 * Doubled(initial, k - 1)
  }

  /** The calls made before the k-th batch. */
  function Before(initial: nat, k: nat): (n: nat)
    ensures n + initial == Doubled(initial, k)
  {
    if k == 0 then 0 else Before(initial, k - 1) + Doubled(initial, k - 1)
  }

  lemma NextBatch(initial: nat, k: nat)
    ensures Before(initial, 0) == 0 && Doubled(initial, 0) == initial
    ensures Before(initial, k + 1) == Before(initial, k) + Doubled(initial, k)
    ensures Doubled(initial, k + 1) == 2 * Doubled(initial, k)
  {
  }

  function Min(a: int, b: int): int {
    if a < b then a else b
  }

  function Max(a: int, b: int): int {
    if a < b then b else a
  }

  /** `fn`: one Pod from the template; a namespace on its way out is no error. */
  method CreateOne(api: Api, node: string) returns (err: Option<ApiError>)
    requires api.Valid()
    modifies api
    ensures api.Valid() && api.calls == old(api.calls) + 1
    ensures err == None <==> Succeeds(api.script(old(api.calls)))
    ensures err == None <==> api.script(old(api.calls)) == Fine || api.script(old(api.calls)) == NamespaceGoing
    ensures err.Some? ==> err == Answer(api.script(old(api.calls)))
    ensures Grown(old(api.pods), api.pods, if IsDone(api.script(old(api.calls))) then 1 else 0, node)
  {
    err := api.CreatePod(node);
    if err == Some(NamespaceTerminating) {
      return None;
    }
  }

  /** One of the calls fails with that error. */
  ghost predicate AnswersWith(script: nat -> Outcome, from: nat, to: nat, err: ApiError) {
    exists i | from <= i < to :: Some(err) == Answer(script(i)) && !Succeeds(script(i))
  }

  /** One batch: every call is made, whatever becomes of the others. */
  method RunBatch(api: Api, node: string, batchSize: nat) returns (errors: seq<ApiError>)
    requires api.Valid()
    modifies api
    ensures api.Valid() && api.calls == old(api.calls) + batchSize
    ensures |errors| == batchSize - Successes(api.script, old(api.calls), api.calls)
    ensures forall e :: e in errors ==> AnswersWith(api.script, old(api.calls), api.calls, e)
    ensures Grown(old(api.pods), api.pods, Count(IsDone, api.script, old(api.calls), api.calls), node)
  {
    errors := [];
    for i := 0 to batchSize
      invariant api.Valid() && api.calls == old(api.calls) + i
      invariant |errors| == i - Successes(api.script, old(api.calls), api.calls)
      invariant forall e :: e in errors ==> AnswersWith(api.script, old(api.calls), api.calls, e)
      invariant Grown(old(api.pods), api.pods, Count(IsDone, api.script, old(api.calls), api.calls), node)
    {
      ghost var call := api.calls;
      var err := CreateOne(api, node);
      if err.Some? {
        assert Some(err.value) == Answer(api.script(call)) && !Succeeds(api.script(call));
        errors := errors + [err.value];
      }
    }
  }

  lemma GrownByNone(pods: map<string, Pod>, node: string)
    ensures Grown(pods, pods, 0, node)
  {
  }

  lemma GrownTwice(a: map<string, Pod>, b: map<string, Pod>, c: map<string, Pod>, m: nat, n: nat, node: string)
    requires Grown(a, b, m, node) && Grown(b, c, n, node)
    ensures Grown(a, c, m + n, node)
  {
  }

  /** Where a slow start with a failure stopped: after `k` whole batches without one, in the batch of `Doubled(k)`
      calls, or of the fewer that were left. */
  ghost predicate StoppedInBatch(script: nat -> Outcome, from: nat, count: int, initial: nat, k: nat, to: nat,
                                 err: ApiError) {
    var done := Before(initial, k);
    && done < count
    && to == from + Min(done + Doubled(initial, k), count)
    && (forall i | from <= i < from + done :: Succeeds(script(i)))
    && AnswersWith(script, from + done, to, err)
  }

  lemma {:induction false} CountsAll(holds: Outcome -> bool, script: nat -> Outcome, from: nat, to: nat)
    requires from <= to
    ensures Count(holds, script, from, to) == to - from <==> forall i | from <= i < to :: holds(script(i))
  {
    if from < to {
      CountsAll(holds, script, from, to - 1);
    }
  }

  lemma {:induction false} CountSplits(holds: Outcome -> bool, script: nat -> Outcome, from: nat, mid: nat, to: nat)
    requires from <= mid <= to
    ensures Count(holds, script, from, to) == Count(holds, script, from, mid) + Count(holds, script, mid, to)
  {
    if mid < to {
      CountSplits(holds, script, from, mid, to - 1);
    }
  }

  method SlowStartBatch(api: Api, node: string, count: int, initialBatchSize: int)
    returns (successes: int, err: Option<ApiError>, ghost k: nat)
    requires api.Valid()
    modifies api
    ensures api.Valid()
    ensures old(api.calls) <= api.calls <= old(api.calls) + Max(count, 0)
    ensures initialBatchSize < 1 ==> api.calls == old(api.calls) && err == None
    ensures successes == Successes(api.script, old(api.calls), api.calls)
    ensures initialBatchSize >= 1 ==> (err == None <==> successes == Max(count, 0))
    ensures err.Some? ==> initialBatchSize >= 1
    ensures err.Some? ==> StoppedInBatch(api.script, old(api.calls), count, initialBatchSize, k, api.calls, err.value)
    ensures Grown(old(api.pods), api.pods, Count(IsDone, api.script, old(api.calls), api.calls), node)
  {
    hide Grown, Succeeds, IsDone, Answer, AnswersWith, Count, Doubled, Before;
    k := 0;
    if initialBatchSize >= 1 {
      NextBatch(initialBatchSize, 0);
    }
    ghost var start := api.calls;
    GrownByNone(api.pods, node);
    var remaining := count;
    successes := 0;
    var batchSize := Min(remaining, initialBatchSize);
    while batchSize > 0
      invariant api.Valid()
      invariant remaining <= count && (remaining == count || remaining >= 0)
      invariant successes == count - remaining && api.calls == start + successes
      invariant successes == Successes(api.script, start, api.calls)
      invariant batchSize <= remaining || batchSize <= 0
      invariant batchSize > 0 ==> initialBatchSize >= 1
      invariant initialBatchSize >= 1 && remaining > 0 ==>
                  successes == Before(initialBatchSize, k) && batchSize == Min(Doubled(initialBatchSize, k), remaining)
      invariant initialBatchSize < 1 ==> remaining == count
      invariant Grown(old(api.pods), api.pods, Count(IsDone, api.script, start, api.calls), node)
      decreases remaining
    {
      ghost var mid, before := api.calls, api.pods;
      NextBatch(initialBatchSize, k);
      var errors := RunBatch(api, node, batchSize);
      CountSplits(Succeeds, api.script, start, mid, api.calls);
      CountSplits(IsDone, api.script, start, mid, api.calls);
      GrownTwice(old(api.pods), before, api.pods,
                 Count(IsDone, api.script, start, mid), Count(IsDone, api.script, mid, api.calls), node);
      var curSuccesses := batchSize - |errors|;
      successes := successes + curSuccesses;
      if |errors| > 0 {
        assert errors[0] in errors;
        CountsAll(Succeeds, api.script, start, mid);
        return successes, Some(errors[0]), k;
      }
      remaining := remaining - batchSize;
      batchSize := Min(2 * batchSize, remaining);
      k := k + 1;
    }
    return successes, None, k;
  }

  // ---------------------------------------------------------------- which Pods to delete

  /** A ReplicaSet of the same owner, with the Pods its selector matches; `None` for a selector that does not parse. */
  datatype Related = Related(matched: Option<Result<seq<Pod>, ApiError>>)

  predicate Usable(related: seq<Related>) {
    forall i | 0 <= i < |related| :: related[i].matched.Some? ==> related[i].matched.value.Ok?
  }

  predicate ListedBy(related: seq<Related>, n: nat, p: Pod)
    requires n <= |related|
  {
    exists i | 0 <= i < n ::
      related[i].matched.Some? && related[i].matched.value.Ok? && p in related[i].matched.value.value
  }

  function Uids(pods: seq<Pod>): set<nat> {
    set p | p in pods :: p.uid
  }

  predicate DistinctUids(pods: seq<Pod>) {
    forall i, j | 0 <= i < j < |pods| :: pods[i].uid != pods[j].uid
  }

  /** The Pods hold every UID the related ReplicaSets list, once each, and no other. */
  ghost predicate Relates(related: seq<Related>, pods: seq<Pod>) {
    && DistinctUids(pods)
    && (forall p :: p in pods ==> ListedBy(related, |related|, p))
    && forall p :: ListedBy(related, |related|, p) ==> p.uid in Uids(pods)
  }

  /** The loop over one related ReplicaSet's Pods: those already seen are skipped. */
  method AddUnseen(relatedPods: seq<Pod>, seen: set<nat>, pods: seq<Pod>) returns (r: seq<Pod>, seen': set<nat>)
    requires DistinctUids(relatedPods) && seen == Uids(relatedPods)
    ensures DistinctUids(r) && seen' == Uids(r) == seen + Uids(pods)
    ensures forall p :: p in r ==> p in relatedPods || p in pods
  {
    r, seen' := relatedPods, seen;
    for i := 0 to |pods|
      invariant DistinctUids(r) && seen' == Uids(r) == seen + Uids(pods[..i])
      invariant forall p :: p in r ==> p in relatedPods || p in pods
    {
      assert pods[..i + 1] == pods[..i] + [pods[i]];
      assert Uids(pods[..i + 1]) == Uids(pods[..i]) + {pods[i].uid};
      if pods[i].uid !in seen' {
        forall k | 0 <= k < |r| ensures r[k].uid != pods[i].uid {
          assert r[k] in r;
        }
        assert Uids(r + [pods[i]]) == Uids(r) + {pods[i].uid};
        r, seen' := r + [pods[i]], seen' + {pods[i].uid};
      }
    }
    assert pods[..|pods|] == pods;
  }

  /** The Pods the related ReplicaSets list, each UID once. */
  method GetIndirectlyRelatedPods(related: seq<Related>) returns (r: Result<seq<Pod>, ApiError>)
    ensures r.Ok? <==> Usable(related)
    ensures r.Ok? ==> Relates(related, r.value)
  {
    var pods, seen := [], {};
    for i := 0 to |related|
      invariant Usable(related[..i])
      invariant DistinctUids(pods) && seen == Uids(pods)
      invariant forall p :: p in pods ==> ListedBy(related, i, p)
      invariant forall p :: ListedBy(related, i, p) ==> p.uid in Uids(pods)
    {
      if related[i].matched.None? {
        continue;
      }
      if related[i].matched.value.Err? {
        return Err(related[i].matched.value.error);
      }
      pods, seen := AddUnseen(pods, seen, related[i].matched.value.value);
    }
    return Ok(pods);
  }

  /** How many active Pods of the list are on the node. */
  function OnNode(pods: seq<Pod>, node: string): nat {
    if pods == [] then 0
    else
      OnNode(pods[..|pods| - 1], node) +
      (var p := pods[|pods| - 1]; if !p.terminating && p.node == node then 1 else 0)
  }

  method CountPerNode(relatedPods: seq<Pod>) returns (podsOnNode: map<string, nat>)
    ensures forall n :: OnNode(relatedPods, n) == if n in podsOnNode then podsOnNode[n] else 0
  {
    podsOnNode := map[];
    for i := 0 to |relatedPods|
      invariant forall n :: OnNode(relatedPods[..i], n) == if n in podsOnNode then podsOnNode[n] else 0
    {
      assert relatedPods[..i + 1][..i] == relatedPods[..i];
      var p := relatedPods[i];
      if !p.terminating {
        podsOnNode := podsOnNode[p.node := (if p.node in podsOnNode then podsOnNode[p.node] else 0) + 1];
      }
    }
    assert relatedPods[..|relatedPods|] == relatedPods;
  }

  /** The comparator of `ActivePodsWithRanks`: whether the first Pod, with its rank, goes before the second. */
  type Order = (Pod, nat, Pod, nat) -> bool

  ghost predicate WeakOrder(before: Order) {
    && (forall p, a, q, b :: before(p, a, q, b) ==> !before(q, b, p, a))
    && (forall p, a, q, b, r, c :: before(p, a, r, c) ==> before(p, a, q, b) || before(q, b, r, c))
  }

  /** The order on Pods once each is ranked by the related Pods on its node. */
  predicate GoesBefore(before: Order, relatedPods: seq<Pod>, p: Pod, q: Pod) {
    before(p, OnNode(relatedPods, p.node), q, OnNode(relatedPods, q.node))
  }

  ghost predicate SortedUpTo(before: Order, relatedPods: seq<Pod>, s: seq<Pod>, n: int) {
    forall i, j | 0 <= i < j < n && j < |s| :: !GoesBefore(before, relatedPods, s[j], s[i])
  }

  ghost predicate Ranked(relatedPods: seq<Pod>, pods: seq<Pod>, ranks: seq<nat>) {
    |ranks| == |pods| && forall i | 0 <= i < |pods| :: ranks[i] == OnNode(relatedPods, pods[i].node)
  }

  /** Swaps a Pod and its rank together. */
  method Swap(pods: array<Pod>, ranks: array<nat>, i: nat, j: nat)
    requires i < j < pods.Length == ranks.Length
    modifies pods, ranks
    ensures pods[..] == old(pods[..])[i := old(pods[j])][j := old(pods[i])]
    ensures ranks[..] == old(ranks[..])[i := old(ranks[j])][j := old(ranks[i])]
    ensures multiset(pods[..]) == multiset(old(pods[..]))
  {
    pods[i], pods[j] := pods[j], pods[i];
    ranks[i], ranks[j] := ranks[j], ranks[i];
  }

  method Insert(pods: array<Pod>, ranks: array<nat>, before: Order, n: nat, ghost relatedPods: seq<Pod>)
    requires n < pods.Length == ranks.Length && WeakOrder(before)
    requires Ranked(relatedPods, pods[..], ranks[..]) && SortedUpTo(before, relatedPods, pods[..], n)
    modifies pods, ranks
    ensures Ranked(relatedPods, pods[..], ranks[..]) && SortedUpTo(before, relatedPods, pods[..], n + 1)
    ensures multiset(pods[..]) == multiset(old(pods[..]))
  {
    hide OnNode;
    var j := n;
    while j > 0 && before(pods[j], ranks[j], pods[j - 1], ranks[j - 1])
      invariant 0 <= j <= n
      invariant Ranked(relatedPods, pods[..], ranks[..])
      invariant multiset(pods[..]) == multiset(old(pods[..]))
      invariant forall x, y | 0 <= x < y <= n && y != j :: x != j ==> !GoesBefore(before, relatedPods, pods[y], pods[x])
      invariant forall y | j < y <= n :: !GoesBefore(before, relatedPods, pods[y], pods[j])
    {
      Swap(pods, ranks, j - 1, j);
      j := j - 1;
    }
    forall x | 0 <= x < j ensures !GoesBefore(before, relatedPods, pods[j], pods[x]) {
      assert !GoesBefore(before, relatedPods, pods[j], pods[j - 1]);
    }
  }

  /** `sort.Sort` on the Pods with their ranks. */
  method SortByRank(pods: array<Pod>, ranks: array<nat>, before: Order, ghost relatedPods: seq<Pod>)
    requires pods.Length == ranks.Length && WeakOrder(before) && Ranked(relatedPods, pods[..], ranks[..])
    modifies pods, ranks
    ensures SortedUpTo(before, relatedPods, pods[..], pods.Length)
    ensures multiset(pods[..]) == multiset(old(pods[..]))
  {
    for i := 0 to pods.Length
      invariant Ranked(relatedPods, pods[..], ranks[..]) && SortedUpTo(before, relatedPods, pods[..], i)
      invariant multiset(pods[..]) == multiset(old(pods[..]))
    {
      Insert(pods, ranks, before, i, relatedPods);
    }
  }

  /** No later Pod goes before one of the first `n`. */
  ghost predicate FirstInOrder(before: Order, relatedPods: seq<Pod>, pods: seq<Pod>, n: nat) {
    forall i, j | 0 <= i < n <= j < |pods| :: !GoesBefore(before, relatedPods, pods[j], pods[i])
  }

  /** Picks `diff` of the Pods: no Pod that is kept goes before one that is picked. */
  method GetPodsToDelete(filteredPods: array<Pod>, relatedPods: seq<Pod>, diff: nat, before: Order)
    returns (r: seq<Pod>)
    requires diff <= filteredPods.Length && WeakOrder(before)
    modifies filteredPods
    ensures multiset(filteredPods[..]) == multiset(old(filteredPods[..]))
    ensures r == filteredPods[..diff]
    ensures FirstInOrder(before, relatedPods, filteredPods[..], diff)
  {
    if diff < filteredPods.Length {
      var podsOnNode := CountPerNode(relatedPods);
      var ranks := new nat[filteredPods.Length];
      for i := 0 to filteredPods.Length
        invariant filteredPods[..] == old(filteredPods[..])
        invariant forall k | 0 <= k < i :: ranks[k] == OnNode(relatedPods, filteredPods[k].node)
      {
        var node := filteredPods[i].node;
        ranks[i] := if node in podsOnNode then podsOnNode[node] else 0;
      }
      SortByRank(filteredPods, ranks, before, relatedPods);
    }
    return filteredPods[..diff];
  }

  // ---------------------------------------------------------------- one sync

  datatype ReplicaSet = ReplicaSet(replicas: int, templateNode: string, deleting: bool)

  function Names(pods: seq<Pod>): set<string> {
    set p | p in pods :: p.name
  }

  predicate DistinctNames(pods: seq<Pod>) {
    forall i, j | 0 <= i < j < |pods| :: pods[i].name != pods[j].name
  }

  /** The chosen Pods are gone or terminating, the others as they were. */
  ghost predicate Thinned(pods: map<string, Pod>, pods': map<string, Pod>, chosen: set<string>) {
    && Live(pods') == Live(pods) - chosen
    && (forall k :: k in chosen && k in pods' ==> k in pods && pods'[k] == pods[k].(terminating := true))
    && forall k :: k !in chosen ==> (k in pods <==> k in pods') && (k in pods ==> pods'[k] == pods[k])
  }

  /** The list holds exactly the live Pods, each once. */
  ghost predicate ListsLive(pods: map<string, Pod>, active: seq<Pod>) {
    && DistinctNames(active)
    && forall p :: p in active <==> p.name in pods && pods[p.name] == p && !p.terminating
  }

  lemma {:induction false} NamesCount(pods: seq<Pod>)
    requires DistinctNames(pods)
    ensures |Names(pods)| == |pods|
  {
    if pods != [] {
      var init, last := pods[..|pods| - 1], pods[|pods| - 1];
      NamesCount(init);
      assert Names(pods) == Names(init) + {last.name} by { assert pods == init + [last]; }
      assert last.name !in Names(init);
    } else {
      assert Names(pods) == {};
    }
  }

  lemma LiveCount(pods: map<string, Pod>, active: seq<Pod>)
    requires Filed(pods) && ListsLive(pods, active)
    ensures Names(active) == Live(pods) && |active| == |Live(pods)|
  {
    forall k | k in Live(pods) ensures k in Names(active) {
      assert pods[k] in active;
    }
    NamesCount(active);
  }

  /** Any part of the list, in any order of the list, names as many live Pods. */
  lemma PickedNames(active: seq<Pod>, sorted: seq<Pod>, n: nat)
    requires multiset(active) == multiset(sorted) && DistinctNames(active) && n <= |sorted|
    ensures DistinctNames(sorted[..n]) && |Names(sorted[..n])| == n
    ensures forall p :: p in sorted[..n] ==> p in active
  {
    forall p | p in sorted[..n] ensures p in active {
      assert p in multiset(sorted);
    }
    assert DistinctNames(sorted) by { PermutationDistinct(active, sorted); }
    NamesCount(sorted[..n]);
  }

  lemma PermutationDistinct(a: seq<Pod>, b: seq<Pod>)
    requires multiset(a) == multiset(b) && DistinctNames(a)
    ensures DistinctNames(b)
  {
    PermutationKeeps(a, b);
    forall i, j | 0 <= i < j < |b| ensures b[i].name != b[j].name {
      assert b[i] in a && b[j] in a;
    }
  }

  lemma ThinnedTwice(a: map<string, Pod>, b: map<string, Pod>, c: map<string, Pod>, first: set<string>,
                     second: set<string>)
    requires Thinned(a, b, first) && Thinned(b, c, second)
    ensures Thinned(a, c, first + second)
  {
  }

  lemma ThinnedByNone(pods: map<string, Pod>)
    ensures Thinned(pods, pods, {})
  {
  }

  lemma ThinnedKeeps(a: map<string, Pod>, b: map<string, Pod>, chosen: set<string>, p: Pod)
    requires Thinned(a, b, chosen) && Holds(a, p.name, p.uid) && p.name !in chosen
    ensures Holds(b, p.name, p.uid)
  {
  }

  /** One delete; the error counts unless the Pod was absent. */
  method DeleteOne(api: Api, p: Pod) returns (err: Option<ApiError>, ghost gone: set<string>)
    requires api.Valid()
    modifies api
    ensures api.Valid() && api.calls == old(api.calls) + 1
    ensures gone <= {p.name} && Thinned(old(api.pods), api.pods, gone)
    ensures Holds(old(api.pods), p.name, p.uid) && err == None ==> gone == {p.name}
    ensures Holds(old(api.pods), p.name, p.uid) && api.Faultless() ==> err == None
  {
    ghost var before := api.pods;
    err := api.DeletePod(p.name, p.uid);
    gone := if Holds(before, p.name, p.uid) && IsGone(before, api.pods, p.name) then {p.name} else {};
    if err == Some(NotFound) {
      return None, gone;
    }
  }

  lemma NamesStep(pods: seq<Pod>, i: nat)
    requires i < |pods|
    ensures Names(pods[..i + 1]) == Names(pods[..i]) + {pods[i].name}
    ensures DistinctNames(pods) ==> pods[i].name !in Names(pods[..i])
  {
    assert pods[..i + 1] == pods[..i] + [pods[i]];
  }

  /** The deletes of one sync, all issued. */
  method DeleteAll(api: Api, podsToDelete: seq<Pod>) returns (errors: seq<ApiError>, ghost gone: set<string>)
    requires api.Valid()
    modifies api
    ensures api.Valid() && api.calls == old(api.calls) + |podsToDelete|
    ensures gone <= Names(podsToDelete) && Thinned(old(api.pods), api.pods, gone)
    ensures DistinctNames(podsToDelete) && (forall p :: p in podsToDelete ==> Holds(old(api.pods), p.name, p.uid)) ==>
              (errors == [] ==> gone == Names(podsToDelete)) && (api.Faultless() ==> errors == [])
  {
    hide Thinned, Holds, DistinctNames, Names;
    errors, gone := [], {};
    ThinnedByNone(api.pods);
    ghost var fresh_ := DistinctNames(podsToDelete)
                        && forall p :: p in podsToDelete ==> Holds(api.pods, p.name, p.uid);
    assert Names(podsToDelete[..0]) == {} by { NoNames(podsToDelete[..0]); }
    for i := 0 to |podsToDelete|
      invariant api.Valid() && api.calls == old(api.calls) + i
      invariant gone <= Names(podsToDelete[..i]) && Thinned(old(api.pods), api.pods, gone)
      invariant fresh_ && errors == [] ==> gone == Names(podsToDelete[..i])
      invariant fresh_ && api.Faultless() ==> errors == []
    {
      ghost var before := api.pods;
      NamesStep(podsToDelete, i);
      if fresh_ {
        NotYetGone(podsToDelete, i, gone);
        ThinnedKeeps(old(api.pods), before, gone, podsToDelete[i]);
      }
      var err;
      ghost var one;
      err, one := DeleteOne(api, podsToDelete[i]);
      ThinnedTwice(old(api.pods), before, api.pods, gone, one);
      gone := gone + one;
      if err.Some? {
        errors := errors + [err.value];
      }
    }
    assert podsToDelete[..|podsToDelete|] == podsToDelete;
  }

  lemma NotYetGone(pods: seq<Pod>, i: nat, gone: set<string>)
    requires i < |pods| && DistinctNames(pods) && gone <= Names(pods[..i])
    ensures pods[i].name !in gone
  {
    NamesStep(pods, i);
  }

  lemma NoNames(pods: seq<Pod>)
    requires pods == []
    ensures Names(pods) == {}
  {
  }

  function Abs(n: int): nat {
    if n < 0 then -n else n
  }

  /** How many creates or deletes one sync may issue. */
  function Quota(live: nat, replicas: int, burst: nat): nat {
    Min(Abs(live - replicas), burst)
  }

  /** The first `n` of the live Pods in some order by rank: no other live Pod goes before one of them. */
  ghost predicate FirstVictims(related: seq<Related>, before: Order, pods: map<string, Pod>, n: nat,
                               victims: set<string>)
  {
    exists relatedPods, sorted :: Relates(related, relatedPods) && Picks(relatedPods, before, pods, sorted, n, victims)
  }

  ghost predicate Picks(relatedPods: seq<Pod>, before: Order, pods: map<string, Pod>, sorted: seq<Pod>, n: nat,
                        victims: set<string>)
  {
    && ListsLive(pods, sorted) && n <= |sorted|
    && FirstInOrder(before, relatedPods, sorted, n)
    && victims == Names(sorted[..n])
  }

  /** One sync with a fresh list and no errors. */
  ghost predicate SyncStep(rs: ReplicaSet, burst: nat, related: seq<Related>, before: Order,
                           pods: map<string, Pod>, pods': map<string, Pod>)
  {
    var n := |Live(pods)|;
    if n <= rs.replicas then Grown(pods, pods', Quota(n, rs.replicas, burst), rs.templateNode)
    else
      exists victims ::
        && FirstVictims(related, before, pods, Quota(n, rs.replicas, burst), victims)
        && Thinned(pods, pods', victims)
  }

  /** What any sync may have done by the time it returns, errors or not: new Pods from the template while there are too
      few, and while there are too many nothing but deletes of the first victims. */
  ghost predicate SyncPart(rs: ReplicaSet, burst: nat, related: seq<Related>, before: Order,
                           pods: map<string, Pod>, pods': map<string, Pod>)
  {
    var n := |Live(pods)|;
    var quota := Quota(n, rs.replicas, burst);
    if n <= rs.replicas then exists born: nat :: born <= quota && Grown(pods, pods', born, rs.templateNode)
    else
      || pods' == pods
      || exists victims, gone ::
           FirstVictims(related, before, pods, quota, victims) && gone <= victims && Thinned(pods, pods', gone)
  }

  lemma VictimsAreLive(related: seq<Related>, before: Order, pods: map<string, Pod>, n: nat, victims: set<string>)
    requires FirstVictims(related, before, pods, n, victims)
    ensures victims <= Live(pods) && |victims| == n
  {
    hide Relates, FirstInOrder;
    var relatedPods, sorted :| Relates(related, relatedPods) && Picks(relatedPods, before, pods, sorted, n, victims);
    PickedNames(sorted, sorted, n);
  }

  predicate Between(a: int, x: int, b: int) {
    a <= x <= b || b <= x <= a
  }

  lemma ThinnedCount(pods: map<string, Pod>, pods': map<string, Pod>, chosen: set<string>)
    requires Thinned(pods, pods', chosen)
    ensures |Live(pods)| - |chosen| <= |Live(pods')| <= |Live(pods)|
    ensures chosen <= Live(pods) ==> |Live(pods')| == |Live(pods)| - |chosen|
  {
    hide Live;
    DifferenceCount(Live(pods), chosen);
  }

  lemma DifferenceCount(a: set<string>, b: set<string>)
    ensures |a| - |b| <= |a - b| <= |a|
    ensures b <= a ==> |a - b| == |a| - |b|
  {
    assert a == (a - b) + a * b;
    assert b == a * b + (b - a);
    if b <= a {
      assert a * b == b;
    }
  }

  /** The creating half. */
  method CreateMissing(api: Api, burst: nat, missing: nat, rs: ReplicaSet)
    returns (err: Option<ApiError>, ghost born: nat)
    requires api.Valid()
    modifies api
    ensures api.Valid() && born <= Min(missing, burst) && Grown(old(api.pods), api.pods, born, rs.templateNode)
    ensures old(api.calls) <= api.calls <= old(api.calls) + Min(missing, burst)
    ensures err == None && api.NamespaceStays() ==> born == Min(missing, burst)
    ensures api.Faultless() ==> err == None
  {
    hide Grown;
    var diff := missing;
    if diff > burst {
      diff := burst;
    }
    ghost var from := api.calls;
    var successes;
    ghost var k;
    successes, err, k := SlowStartBatch(api, rs.templateNode, diff, 1);
    born := Count(IsDone, api.script, from, api.calls);
    CountsAll(IsDone, api.script, from, api.calls);
    CountsAll(Succeeds, api.script, from, api.calls);
  }

  /** The deleting half. */
  method DeleteSurplus(api: Api, burst: nat, surplus: nat, activePods: array<Pod>, related: seq<Related>, before: Order)
    returns (err: Option<ApiError>, ghost victims: set<string>, ghost gone: set<string>)
    requires api.Valid() && surplus <= activePods.Length && WeakOrder(before)
    modifies api, activePods
    ensures api.Valid()
    ensures old(api.calls) <= api.calls <= old(api.calls) + Min(surplus, burst)
    ensures gone <= victims && Thinned(old(api.pods), api.pods, gone)
    ensures !Usable(related) ==> err.Some? && api.pods == old(api.pods)
    ensures Usable(related) && ListsLive(old(api.pods), old(activePods[..])) ==>
              && FirstVictims(related, before, old(api.pods), Min(surplus, burst), victims)
              && (err == None ==> gone == victims)
              && (api.Faultless() ==> err == None)
  {
    hide Thinned, FirstInOrder, Names, DistinctNames, WeakOrder, ListsLive, Relates, Usable;
    var diff := surplus;
    if diff > burst {
      diff := burst;
    }
    victims, gone := {}, {};
    ThinnedByNone(api.pods);
    var listed := GetIndirectlyRelatedPods(related);
    if listed.Err? {
      return Some(listed.error), victims, gone;
    }
    ghost var active := activePods[..];
    var podsToDelete := GetPodsToDelete(activePods, listed.value, diff, before);
    victims := Names(podsToDelete);
    if ListsLive(api.pods, active) {
      PickedListed(api.pods, active, activePods[..], diff);
      assert Picks(listed.value, before, api.pods, activePods[..], diff, victims);
    }
    var errors;
    errors, gone := DeleteAll(api, podsToDelete);
    if |errors| > 0 {
      return Some(errors[0]), victims, gone;
    }
    return None, victims, gone;
  }

  /** A sorted list of the live Pods is one still, and its Pods are there to be deleted. */
  lemma PickedListed(pods: map<string, Pod>, active: seq<Pod>, sorted: seq<Pod>, n: nat)
    requires ListsLive(pods, active) && multiset(active) == multiset(sorted) && n <= |sorted|
    ensures ListsLive(pods, sorted) && DistinctNames(sorted[..n])
    ensures forall p :: p in sorted[..n] ==> Holds(pods, p.name, p.uid)
  {
    PickedNames(active, sorted, n);
    PickedNames(active, sorted, |sorted|);
    PermutationKeeps(active, sorted);
    assert sorted[..|sorted|] == sorted;
  }

  method ManageReplicas(api: Api, burst: nat, activePods: array<Pod>, rs: ReplicaSet, related: seq<Related>,
                        before: Order)
    returns (err: Option<ApiError>)
    requires api.Valid() && rs.replicas >= 0 && WeakOrder(before)
    modifies api, activePods
    ensures api.Valid()
    ensures old(api.calls) <= api.calls <= old(api.calls) + Quota(activePods.Length, rs.replicas, burst)
    ensures ListsLive(old(api.pods), old(activePods[..])) ==>
              && SyncPart(rs, burst, related, before, old(api.pods), api.pods)
              && (err == None && api.NamespaceStays() ==> SyncStep(rs, burst, related, before, old(api.pods), api.pods))
              && (api.Faultless() && Usable(related) ==> err == None)
  {
    hide Thinned, WeakOrder, ListsLive, FirstVictims, Live, Grown, Usable;
    ghost var active := activePods[..];
    if ListsLive(api.pods, active) {
      LiveCount(api.pods, active);
    }
    var diff := activePods.Length - rs.replicas;
    if diff < 0 {
      ghost var born;
      err, born := CreateMissing(api, burst, -diff, rs);
    } else if diff > 0 {
      ghost var victims, gone;
      err, victims, gone := DeleteSurplus(api, burst, diff, activePods, related, before);
    } else {
      GrownByNone(api.pods, rs.templateNode);
      return None;
    }
  }

  /** Even with errors the number of live Pods never passes the one asked for. */
  lemma PartNeverPasses(rs: ReplicaSet, burst: nat, related: seq<Related>, before: Order,
                        pods: map<string, Pod>, pods': map<string, Pod>)
    requires SyncPart(rs, burst, related, before, pods, pods')
    ensures Between(|Live(pods)|, |Live(pods')|, rs.replicas)
  {
    hide Live, Thinned, FirstVictims;
    if |Live(pods)| > rs.replicas && pods' != pods {
      var quota := Quota(|Live(pods)|, rs.replicas, burst);
      var victims, gone :| FirstVictims(related, before, pods, quota, victims) && gone <= victims
                           && Thinned(pods, pods', gone);
      VictimsAreLive(related, before, pods, quota, victims);
      ThinnedCount(pods, pods', gone);
      SubsetCount(gone, victims);
    }
  }

  method FilterActivePods(pods: seq<Pod>) returns (result: array<Pod>)
    ensures fresh(result) && result[..] == Active(pods)
  {
    var found: seq<Pod> := [];
    for i := 0 to |pods|
      invariant found == Active(pods[..i])
    {
      assert pods[..i + 1][..i] == pods[..i];
      if !pods[i].terminating {
        found := found + [pods[i]];
      }
    }
    assert pods[..|pods|] == pods;
    result := new Pod[|found|](i requires 0 <= i < |found| => found[i]);
    assert result[..] == found;
  }

  function Active(pods: seq<Pod>): (r: seq<Pod>)
    ensures forall p :: p in r <==> p in pods && !p.terminating
  {
    if pods == [] then []
    else
      Active(pods[..|pods| - 1]) + (var p := pods[|pods| - 1]; if p.terminating then [] else [p])
  }

  /** The list holds exactly the server's Pods, each once. */
  ghost predicate ListsAll(pods: map<string, Pod>, listed: seq<Pod>) {
    && DistinctNames(listed)
    && forall p :: p in listed <==> p.name in pods && pods[p.name] == p
  }

  lemma {:induction false} ActiveDistinct(listed: seq<Pod>)
    requires DistinctNames(listed)
    ensures DistinctNames(Active(listed))
  {
    if listed != [] {
      var init := listed[..|listed| - 1];
      ActiveDistinct(init);
      forall i | 0 <= i < |Active(init)| ensures Active(init)[i].name != listed[|listed| - 1].name {
        assert Active(init)[i] in init;
      }
    }
  }

  /** One sync. Whatever goes wrong, it issues no more requests than the quota allows and touches only what a sync may;
      with a fresh list a nil error means that it took exactly one step. `status` is what the status update answers. */
  method SyncReplicaSet(api: Api, burst: nat, found: Option<ReplicaSet>, listed: seq<Pod>, related: seq<Related>,
                        before: Order, status: Option<ApiError>)
    returns (err: Option<ApiError>)
    requires api.Valid() && (found.Some? ==> found.value.replicas >= 0) && WeakOrder(before)
    modifies api
    ensures api.Valid()
    ensures found.None? ==> err == None
    ensures found.Some? && (status.Some? || found.value.deleting) ==> err == status
    ensures found.None? || found.value.deleting ==> api.calls == old(api.calls) && api.pods == old(api.pods)
    ensures found.Some? ==>
              old(api.calls) <= api.calls <= old(api.calls) + Quota(|Active(listed)|, found.value.replicas, burst)
    ensures found.Some? && !found.value.deleting && ListsAll(old(api.pods), listed) ==>
              && |Active(listed)| == |Live(old(api.pods))|
              && SyncPart(found.value, burst, related, before, old(api.pods), api.pods)
              && (err == None && api.NamespaceStays() ==>
                    SyncStep(found.value, burst, related, before, old(api.pods), api.pods))
              && (api.Faultless() && Usable(related) ==> err == status)
  {
    hide SyncStep, SyncPart, WeakOrder, Live, Active, Usable;
    if found.None? {
      return None;
    }
    var activePods := FilterActivePods(listed);
    if ListsAll(api.pods, listed) {
      ActiveDistinct(listed);
      assert ListsLive(api.pods, activePods[..]);
      LiveCount(api.pods, activePods[..]);
    }
    var manageReplicasErr := None;
    if !found.value.deleting {
      manageReplicasErr := ManageReplicas(api, burst, activePods, found.value, related, before);
    }
    if status.Some? {
      return status;
    }
    return manageReplicasErr;
  }

  // ---------------------------------------------------------------- syncs in a row

  /** How far a step moves: exactly the quota, towards the number asked for. */
  lemma StepMoves(rs: ReplicaSet, burst: nat, related: seq<Related>, before: Order,
                  pods: map<string, Pod>, pods': map<string, Pod>)
    requires rs.replicas >= 0 && SyncStep(rs, burst, related, before, pods, pods')
    ensures Abs(|Live(pods')| - rs.replicas)
            == Abs(|Live(pods)| - rs.replicas) - Quota(|Live(pods)|, rs.replicas, burst)
    ensures Between(|Live(pods)|, |Live(pods')|, rs.replicas)
    ensures |Live(pods)| == rs.replicas ==> pods' == pods
  {
    hide Live, Thinned, FirstVictims;
    if |Live(pods)| > rs.replicas {
      var quota := Quota(|Live(pods)|, rs.replicas, burst);
      var victims :| FirstVictims(related, before, pods, quota, victims) && Thinned(pods, pods', victims);
      VictimsAreLive(related, before, pods, quota, victims);
      ThinnedCount(pods, pods', victims);
    } else if |Live(pods)| == rs.replicas {
      NoGrowth(pods, pods', rs.templateNode);
    }
  }

  lemma OneMoreIsMore(pods: map<string, Pod>, pods': map<string, Pod>, name: string)
    requires forall k :: k in pods ==> k in pods' && pods'[k] == pods[k]
    requires name in pods' && name !in pods && !pods'[name].terminating
    ensures |Live(pods')| > |Live(pods)|
  {
    assert name in Live(pods') - Live(pods);
    SubsetCount(Live(pods), Live(pods'));
  }

  lemma NoGrowth(pods: map<string, Pod>, pods': map<string, Pod>, node: string)
    requires Grown(pods, pods', 0, node)
    ensures pods' == pods
  {
    hide Live;
    if k :| k in pods' && k !in pods {
      OneMoreIsMore(pods, pods', k);
    }
  }

  ghost predicate SyncsInARow(rs: ReplicaSet, burst: nat, worlds: seq<map<string, Pod>>) {
    && worlds != []
    && forall i | 0 <= i < |worlds| - 1 :: SomeSync(rs, burst, worlds[i], worlds[i + 1])
  }

  /** A sync with whatever related ReplicaSets and order by rank there are at the time. */
  ghost predicate SomeSync(rs: ReplicaSet, burst: nat, pods: map<string, Pod>, pods': map<string, Pod>) {
    exists related, before :: SyncStep(rs, burst, related, before, pods, pods')
  }

  /** After `k` syncs the distance is what `k` bursts leave of it; so the number asked for is reached after exactly the
      smallest `k` with `k * burst` at least the distance, and from then on nothing changes. */
  lemma {:induction false} SyncsConverge(rs: ReplicaSet, burst: nat, worlds: seq<map<string, Pod>>)
    requires rs.replicas >= 0 && SyncsInARow(rs, burst, worlds)
    ensures var k, distance := |worlds| - 1, Abs(|Live(worlds[0])| - rs.replicas);
            && Abs(|Live(worlds[k])| - rs.replicas) == Max(0, distance - k * burst)
            && (|Live(worlds[k])| == rs.replicas <==> k * burst >= distance)
            && Between(|Live(worlds[0])|, |Live(worlds[k])|, rs.replicas)
  {
    hide Live, SyncStep;
    var k := |worlds| - 1;
    if k > 0 {
      SyncsConverge(rs, burst, worlds[..k]);
      assert SomeSync(rs, burst, worlds[k - 1], worlds[k]);
      var related, before :| SyncStep(rs, burst, related, before, worlds[k - 1], worlds[k]);
      StepMoves(rs, burst, related, before, worlds[k - 1], worlds[k]);
      assert k * burst == (k - 1) * burst + burst;
    }
  }
}
