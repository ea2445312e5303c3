/** The Deployment controller: one rollout over the ReplicaSets it owns. */
module Deployments {

  import opened Wrappers

  datatype Template = Template(labels: map<string, string>, rest: string)

  /** `owner` is the UID of the controller reference, if any. */
  datatype ReplicaSet = ReplicaSet(
    name: string,
    uid: nat,
    rv: nat,
    owner: Option<nat>,
    replicas: Option<int>,
    template: Template)

  datatype Deployment = Deployment(name: string, uid: nat, replicas: Option<int>, template: Template, deleting: bool)

  datatype ApiError = AlreadyExists | NotFound | Conflict | OtherError

  const HASH_LABEL := "pod-template-hash"

  function ReplicasOf(d: Deployment): int {
    d.replicas.GetOr(1)
  }

  function ReplicasOfRS(rs: ReplicaSet): int {
    rs.replicas.GetOr(0)
  }

  predicate EqualIgnoreHash(a: Template, b: Template) {
    a.labels - {HASH_LABEL} == b.labels - {HASH_LABEL} && a.rest == b.rest
  }

  predicate Matches(d: Deployment, rs: ReplicaSet) {
    EqualIgnoreHash(rs.template, d.template)
  }

  predicate OwnedBy(d: Deployment, rs: ReplicaSet) {
    rs.owner == Some(d.uid)
  }

  // ---------------------------------------------------------------- the server

  /** The ReplicaSets of the namespace; `next` is the next unused UID and resource version. */
  datatype World = World(sets: map<string, ReplicaSet>, next: nat)

  ghost predicate ValidWorld(w: World) {
    && (forall k :: k in w.sets ==> w.sets[k].name == k && w.sets[k].uid < w.next && w.sets[k].rv < w.next)
    && forall j, k :: j in w.sets && k in w.sets && w.sets[j].uid == w.sets[k].uid ==> j == k
  }

  function Updated(w: World, rs: ReplicaSet): World {
    World(w.sets[rs.name := rs.(rv := w.next)], w.next + 1)
  }

  function Created(w: World, rs: ReplicaSet): World {
    World(w.sets[rs.name := rs.(uid := w.next, rv := w.next)], w.next + 1)
  }

  datatype Fault = Lost | AnswerLost

  class Api {
    var now: World
    var writes: nat
    const script: nat -> Option<Fault>

    constructor (w: World, script: nat -> Option<Fault>)
      ensures now == w && this.script == script && writes == 0
    {
      now, this.script, writes := w, script, 0;
    }

    ghost predicate Faultless() {
      forall i :: script(i) == None
    }

    method Create(rs: ReplicaSet) returns (r: Result<ReplicaSet, ApiError>)
      modifies this
      ensures writes == old(writes) + 1
      ensures now == old(now) || (rs.name !in old(now).sets && now == Created(old(now), rs))
      ensures r.Ok? ==> now == Created(old(now), rs) && r.value == now.sets[rs.name]
      ensures r == Err(AlreadyExists) ==> rs.name in old(now).sets && now == old(now)
      ensures Faultless() ==> if rs.name in old(now).sets then r == Err(AlreadyExists) else r.Ok?
    {
      var fault := script(writes);
      writes := writes + 1;
      if fault == Some(Lost) {
        return Err(OtherError);
      }
      if rs.name in now.sets {
        return if fault == None then Err(AlreadyExists) else Err(OtherError);
      }
      now := Created(now, rs);
      return if fault == None then Ok(now.sets[rs.name]) else Err(OtherError);
    }

    /** An update carries the resource version it read. */
    method Update(rs: ReplicaSet) returns (r: Result<ReplicaSet, ApiError>)
      modifies this
      ensures writes == old(writes) + 1
      ensures now == old(now) || (Current(old(now), rs) && now == Updated(old(now), rs))
      ensures r.Ok? ==> now == Updated(old(now), rs)
      ensures Faultless() && Current(old(now), rs) ==> r.Ok?
      ensures Faultless() && !Current(old(now), rs) ==> r.Err? && now == old(now)
    {
      var fault := script(writes);
      writes := writes + 1;
      if fault == Some(Lost) {
        return Err(OtherError);
      }
      if rs.name !in now.sets {
        return if fault == None then Err(NotFound) else Err(OtherError);
      }
      if now.sets[rs.name].rv != rs.rv {
        return if fault == None then Err(Conflict) else Err(OtherError);
      }
      now := Updated(now, rs);
      return if fault == None then Ok(now.sets[rs.name]) else Err(OtherError);
    }
  }

  predicate Current(w: World, rs: ReplicaSet) {
    rs.name in w.sets && w.sets[rs.name].rv == rs.rv
  }

  // ---------------------------------------------------------------- what one rollout does

  /** The first listed ReplicaSet with the Deployment's template. */
  function FindNew(d: Deployment, rsList: seq<ReplicaSet>): (r: Option<ReplicaSet>)
    ensures r.Some? ==> r.value in rsList && Matches(d, r.value)
    ensures r.None? ==> forall rs :: rs in rsList ==> !Matches(d, rs)
  {
    if rsList == [] then None
    else if Matches(d, rsList[0]) then Some(rsList[0])
    else FindNew(d, rsList[1..])
  }

  function Without(rsList: seq<ReplicaSet>, newRS: Option<ReplicaSet>): (r: seq<ReplicaSet>)
    ensures forall rs :: rs in r <==> rs in rsList && (newRS.Some? ==> rs.uid != newRS.value.uid)
  {
    if rsList == [] then []
    else
      Without(rsList[..|rsList| - 1], newRS) +
      (var rs := rsList[|rsList| - 1]; if newRS.Some? && rs.uid == newRS.value.uid then [] else [rs])
  }

  function Owned(d: Deployment, all: seq<ReplicaSet>): (r: seq<ReplicaSet>)
    ensures forall rs :: rs in r <==> rs in all && OwnedBy(d, rs)
  {
    if all == [] then []
    else
      Owned(d, all[..|all| - 1]) + (var rs := all[|all| - 1]; if OwnedBy(d, rs) then [rs] else [])
  }

  function Scaled(w: World, rs: ReplicaSet, n: int): World {
    if ReplicasOfRS(rs) == n then w else Updated(w, rs.(replicas := Some(n)))
  }

  function AllScaled(w: World, rsList: seq<ReplicaSet>, n: int): World {
    if rsList == [] then w else Scaled(AllScaled(w, rsList[..|rsList| - 1], n), rsList[|rsList| - 1], n)
  }

  function NewName(d: Deployment, hash: Template -> string): string {
    d.name + "-" + hash(d.template)
  }

  function NewReplicaSet(d: Deployment, hash: Template -> string): ReplicaSet {
    ReplicaSet(NewName(d, hash), 0, 0, Some(d.uid), Some(ReplicasOf(d)),
               d.template.(labels := d.template.labels[HASH_LABEL := hash(d.template)]))
  }

  /** The whole rollout when nothing goes wrong and the name of a new ReplicaSet is free. */
  function RolledOut(w: World, d: Deployment, rsList: seq<ReplicaSet>, hash: Template -> string): World {
    var newRS := FindNew(d, rsList);
    var w1 := if newRS.Some? then Scaled(w, newRS.value, ReplicasOf(d)) else Created(w, NewReplicaSet(d, hash));
    AllScaled(w1, Without(rsList, newRS), 0)
  }

  function OffCount(rsList: seq<ReplicaSet>, n: int): nat {
    if rsList == [] then 0
    else OffCount(rsList[..|rsList| - 1], n) + if ReplicasOfRS(rsList[|rsList| - 1]) == n then 0 else 1
  }

  /** How many writes that takes. */
  function WritesOf(d: Deployment, rsList: seq<ReplicaSet>): nat {
    var newRS := FindNew(d, rsList);
    (if newRS.Some? && ReplicasOfRS(newRS.value) == ReplicasOf(d) then 0 else 1) + OffCount(Without(rsList, newRS), 0)
  }

  // ---------------------------------------------------------------- the loops

  method FindNewReplicaSet(d: Deployment, rsList: seq<ReplicaSet>) returns (r: Option<ReplicaSet>)
    ensures r == FindNew(d, rsList)
  {
    for i := 0 to |rsList|
      invariant FindNew(d, rsList) == FindNew(d, rsList[i..])
    {
      if EqualIgnoreHash(rsList[i].template, d.template) {
        return Some(rsList[i]);
      }
    }
    return None;
  }

  method FindOldReplicaSets(d: Deployment, rsList: seq<ReplicaSet>) returns (r: seq<ReplicaSet>)
    ensures r == Without(rsList, FindNew(d, rsList))
  {
    r := [];
    var newRS := FindNewReplicaSet(d, rsList);
    for i := 0 to |rsList|
      invariant r == Without(rsList[..i], newRS)
    {
      assert rsList[..i + 1][..i] == rsList[..i];
      if newRS.Some? && rsList[i].uid == newRS.value.uid {
        continue;
      }
      r := r + [rsList[i]];
    }
    assert rsList[..|rsList|] == rsList;
  }

  method FilterReplicaSetsByOwner(all: seq<ReplicaSet>, d: Deployment) returns (r: seq<ReplicaSet>)
    ensures r == Owned(d, all)
  {
    r := [];
    for i := 0 to |all|
      invariant r == Owned(d, all[..i])
    {
      assert all[..i + 1][..i] == all[..i];
      if all[i].owner.Some? && all[i].owner.value == d.uid {
        r := r + [all[i]];
      }
    }
    assert all[..|all|] == all;
  }

  /** Under any faults the world is what it was, or the ReplicaSet has the new count. */
  method ScaleReplicaSet(api: Api, rs: ReplicaSet, newScale: int) returns (scaled: bool, err: Option<ApiError>)
    modifies api
    ensures api.now == old(api.now) || (Current(old(api.now), rs) && api.now == Scaled(old(api.now), rs, newScale))
    ensures err == None ==> api.now == Scaled(old(api.now), rs, newScale) && scaled == (ReplicasOfRS(rs) != newScale)
    ensures api.writes == old(api.writes) + if ReplicasOfRS(rs) == newScale then 0 else 1
    ensures api.Faultless() && Current(old(api.now), rs) ==> err == None
  {
    if ReplicasOfRS(rs) == newScale {
      return false, None;
    }
    var rsCopy := rs.(replicas := Some(newScale));
    var updated := api.Update(rsCopy);
    if updated.Err? {
      return false, Some(updated.error);
    }
    return true, None;
  }

  predicate DistinctNames(rsList: seq<ReplicaSet>) {
    forall i, j | 0 <= i < j < |rsList| :: rsList[i].name != rsList[j].name
  }

  predicate AllCurrent(w: World, rsList: seq<ReplicaSet>) {
    forall rs :: rs in rsList ==> Current(w, rs)
  }

  predicate Named(rsList: seq<ReplicaSet>, k: string) {
    exists rs :: rs in rsList && rs.name == k
  }

  predicate SameAt(w: World, w': World, k: string) {
    (k in w.sets <==> k in w'.sets) && (k in w.sets ==> w'.sets[k] == w.sets[k])
  }

  lemma {:induction false} AllScaledElsewhere(w: World, rsList: seq<ReplicaSet>, n: int, k: string)
    requires !Named(rsList, k)
    ensures SameAt(w, AllScaled(w, rsList, n), k)
  {
    if rsList != [] {
      assert rsList[|rsList| - 1] in rsList;
      AllScaledElsewhere(w, rsList[..|rsList| - 1], n, k);
    }
  }

  /** A listed ReplicaSet that has the count already is left alone, any other gets it. */
  lemma {:induction false} AllScaledMember(w: World, rsList: seq<ReplicaSet>, n: int, rs: ReplicaSet)
    requires DistinctNames(rsList) && rs in rsList
    ensures var w' := AllScaled(w, rsList, n);
            if ReplicasOfRS(rs) == n then SameAt(w, w', rs.name)
            else rs.name in w'.sets && w'.sets[rs.name] == rs.(replicas := Some(n), rv := w'.sets[rs.name].rv)
  {
    var init, last := rsList[..|rsList| - 1], rsList[|rsList| - 1];
    if rs == last {
      AllScaledElsewhere(w, init, n, rs.name);
    } else {
      AllScaledMember(w, init, n, rs);
    }
  }

  // ---------------------------------------------------------------- the rollout

  /** The lister's `Get`. */
  method GetByName(all: seq<ReplicaSet>, name: string) returns (r: Result<ReplicaSet, ApiError>)
    ensures r.Ok? ==> r.value in all && r.value.name == name
    ensures r.Err? ==> r == Err(NotFound) && forall rs :: rs in all ==> rs.name != name
  {
    for i := 0 to |all|
      invariant forall k | 0 <= k < i :: all[k].name != name
    {
      if all[i].name == name {
        return Ok(all[i]);
      }
    }
    return Err(NotFound);
  }

  method GetNewReplicaSet(api: Api, all: seq<ReplicaSet>, d: Deployment, rsList: seq<ReplicaSet>,
                          hash: Template -> string)
    returns (r: Result<ReplicaSet, ApiError>)
    modifies api
    ensures var found, created := FindNew(d, rsList), NewReplicaSet(d, hash);
            if found.Some? then r == Ok(found.value) && api.now == old(api.now) && api.writes == old(api.writes)
            else
              && api.writes == old(api.writes) + 1
              && (|| api.now == old(api.now)
                  || (created.name !in old(api.now).sets && api.now == Created(old(api.now), created)))
              && (r.Ok? ==>
                    || (api.now == Created(old(api.now), created) && r.value == api.now.sets[created.name])
                    || (api.now == old(api.now) && created.name in api.now.sets
                        && r.value in all && r.value.name == created.name))
              && (api.Faultless() && created.name !in old(api.now).sets ==> r.Ok?)
  {
    var existingNewRS := FindNewReplicaSet(d, rsList);
    if existingNewRS.Some? {
      return Ok(existingNewRS.value);
    }
    var podTemplateSpecHash := hash(d.template);
    var newRSTemplate := d.template.(labels := d.template.labels[HASH_LABEL := podTemplateSpecHash]);
    var newRS := ReplicaSet(d.name + "-" + podTemplateSpecHash, 0, 0, Some(d.uid), Some(ReplicasOf(d)), newRSTemplate);
    r := api.Create(newRS);
    if r == Err(AlreadyExists) {
      r := GetByName(all, newRS.name);
    }
  }

  method ReconcileOldReplicaSets(api: Api, oldRSs: seq<ReplicaSet>, ghost d: Deployment, ghost w: World,
                                 ghost known: bool)
    returns (scaledDown: bool, err: Option<ApiError>)
    requires DistinctNames(oldRSs)
    requires known ==> Stored(w, oldRSs) && Preserved(d, w, api.now)
    modifies api
    ensures known ==> Preserved(d, w, api.now)
    ensures err == None ==> api.now == AllScaled(old(api.now), oldRSs, 0)
    ensures err == None ==> api.writes == old(api.writes) + OffCount(oldRSs, 0)
    ensures api.Faultless() && AllCurrent(old(api.now), oldRSs) ==> err == None
  {
    hide Stored, Preserved;
    scaledDown := false;
    for i := 0 to |oldRSs|
      invariant api.now == AllScaled(old(api.now), oldRSs[..i], 0)
      invariant api.writes == old(api.writes) + OffCount(oldRSs[..i], 0)
      invariant known ==> Preserved(d, w, api.now)
    {
      assert oldRSs[..i + 1][..i] == oldRSs[..i];
      AllScaledElsewhere(old(api.now), oldRSs[..i], 0, oldRSs[i].name);
      assert oldRSs[i] in oldRSs;
      ghost var before := api.now;
      var scaled;
      scaled, err := ScaleReplicaSet(api, oldRSs[i], 0);
      if known {
        ScaledPreserves(d, w, before, oldRSs, i, 0);
      }
      if err.Some? {
        return scaledDown, err;
      }
      if scaled {
        scaledDown := true;
      }
    }
    assert oldRSs[..|oldRSs|] == oldRSs;
    return scaledDown, None;
  }

  /** The list holds ReplicaSets as the server has them. */
  predicate Stored(w: World, rsList: seq<ReplicaSet>) {
    forall i | 0 <= i < |rsList| :: rsList[i].name in w.sets && w.sets[rsList[i].name] == rsList[i]
  }

  /** Nothing is lost, and of what was there only replica counts change, to zero or to the Deployment's. */
  ghost predicate Preserved(d: Deployment, w: World, w': World) {
    forall k :: k in w.sets ==>
      && k in w'.sets
      && w'.sets[k] == w.sets[k].(replicas := w'.sets[k].replicas, rv := w'.sets[k].rv)
      && ReplicasOfRS(w'.sets[k]) in {ReplicasOfRS(w.sets[k]), 0, ReplicasOf(d)}
  }

  lemma ScaledPreserves(d: Deployment, w: World, w': World, rsList: seq<ReplicaSet>, i: nat, n: int)
    requires Stored(w, rsList) && i < |rsList| && n in {0, ReplicasOf(d)} && Preserved(d, w, w')
    ensures Preserved(d, w, Scaled(w', rsList[i], n))
  {
  }

  /** The whole lister is up to date: every ReplicaSet of the namespace once, in whatever order. */
  ghost predicate Lists(w: World, all: seq<ReplicaSet>) {
    && ValidWorld(w)
    && DistinctNames(all)
    && forall rs :: rs in all <==> rs.name in w.sets && w.sets[rs.name] == rs
  }

  /** Nothing owned has the template, then the name of a new one is free. */
  predicate NoCollision(d: Deployment, w: World, rsList: seq<ReplicaSet>, hash: Template -> string) {
    FindNew(d, rsList).None? ==> NewName(d, hash) !in w.sets
  }

  lemma {:induction false} OwnedDistinct(d: Deployment, all: seq<ReplicaSet>)
    requires DistinctNames(all)
    ensures DistinctNames(Owned(d, all))
  {
    if all != [] {
      var init, owned := all[..|all| - 1], Owned(d, all[..|all| - 1]);
      OwnedDistinct(d, init);
      forall i | 0 <= i < |owned| ensures owned[i].name != all[|all| - 1].name {
        assert owned[i] in init;
      }
    }
  }

  lemma {:induction false} WithoutDistinct(rsList: seq<ReplicaSet>, newRS: Option<ReplicaSet>)
    requires DistinctNames(rsList)
    ensures DistinctNames(Without(rsList, newRS))
  {
    if rsList != [] {
      var init, rest := rsList[..|rsList| - 1], Without(rsList[..|rsList| - 1], newRS);
      WithoutDistinct(init, newRS);
      forall i | 0 <= i < |rest| ensures rest[i].name != rsList[|rsList| - 1].name {
        assert rest[i] in init;
      }
    }
  }

  lemma OldsListed(d: Deployment, w: World, all: seq<ReplicaSet>)
    requires Lists(w, all)
    ensures var newRS := FindNew(d, Owned(d, all)); var olds := Without(Owned(d, all), newRS);
            && DistinctNames(olds) && Stored(w, olds)
            && (newRS.Some? ==> newRS.value.name in w.sets && w.sets[newRS.value.name] == newRS.value)
            && forall rs :: rs in olds ==> rs.name in w.sets && w.sets[rs.name] == rs && rs.rv < w.next
                                           && (newRS.Some? ==> rs.name != newRS.value.name)
  {
    hide Matches, OwnedBy, FindNew, Owned, Without, DistinctNames;
    var newRS := FindNew(d, Owned(d, all));
    var olds := Without(Owned(d, all), newRS);
    OwnedDistinct(d, all);
    WithoutDistinct(Owned(d, all), newRS);
    if newRS.Some? {
      assert newRS.value in all;
    }
    assert Stored(w, olds) by {
      assert forall i | 0 <= i < |olds| :: olds[i] in olds;
    }
  }

  /** What the rollout's first half leaves of a fresh list for the second. */
  lemma OldsReady(d: Deployment, w: World, all: seq<ReplicaSet>, hash: Template -> string, w1: World)
    requires Lists(w, all)
    requires var newRS := FindNew(d, Owned(d, all));
             if newRS.Some? then w1 == Scaled(w, newRS.value, ReplicasOf(d))
             else NewName(d, hash) !in w.sets && w1 == Created(w, NewReplicaSet(d, hash))
    ensures var olds := Without(Owned(d, all), FindNew(d, Owned(d, all)));
            DistinctNames(olds) && Stored(w, olds) && AllCurrent(w1, olds) && Preserved(d, w, w1)
  {
    hide Lists, FindNew, Owned, Without, Stored, DistinctNames;
    OldsListed(d, w, all);
  }

  /** One reconciliation step. Under any faults nothing is lost and only replica counts change; with a fresh
      list and no name collision, a nil error means the world has become `RolledOut`, and without faults it is nil. */
  method Rollout(api: Api, all: seq<ReplicaSet>, d: Deployment, rsList: seq<ReplicaSet>, hash: Template -> string)
    returns (err: Option<ApiError>)
    requires rsList == Owned(d, all) && DistinctNames(all)
    modifies api
    ensures Lists(old(api.now), all) && NoCollision(d, old(api.now), rsList, hash) ==>
              Preserved(d, old(api.now), api.now)
    ensures Lists(old(api.now), all) && NoCollision(d, old(api.now), rsList, hash) && err == None ==>
              && api.now == RolledOut(old(api.now), d, rsList, hash)
              && api.writes == old(api.writes) + WritesOf(d, rsList)
    ensures Lists(old(api.now), all) && NoCollision(d, old(api.now), rsList, hash) && api.Faultless() ==> err == None
  {
    hide Preserved, Lists, FindNew, Without, Owned, NewName, AllScaled, OffCount, Stored, DistinctNames, AllCurrent;
    ghost var w := api.now;
    ghost var fresh_ := Lists(w, all) && NoCollision(d, w, rsList, hash);
    NothingChanged(d, w);
    OwnedDistinct(d, all);
    var oldRSs := FindOldReplicaSets(d, rsList);
    WithoutDistinct(rsList, FindNew(d, rsList));
    var newRS := GetNewReplicaSet(api, all, d, rsList, hash);
    if fresh_ && FindNew(d, rsList).None? && api.now != w {
      OldsReady(d, w, all, hash, api.now);
    }
    if newRS.Err? {
      return Some(newRS.error);
    }
    ghost var mid := api.now;
    var scaled;
    scaled, err := ScaleReplicaSet(api, newRS.value, ReplicasOf(d));
    if fresh_ {
      if FindNew(d, rsList).Some? {
        FoundIsCurrent(d, w, all);
        if api.now == Scaled(w, newRS.value, ReplicasOf(d)) {
          OldsReady(d, w, all, hash, api.now);
        }
      } else {
        assert ReplicasOfRS(newRS.value) == ReplicasOf(d);
        assert api.now == mid;
      }
    }
    if err.Some? {
      return err;
    }
    if fresh_ {
      OldsReady(d, w, all, hash, api.now);
    }
    scaled, err := ReconcileOldReplicaSets(api, oldRSs, d, w, fresh_);
  }

  lemma NothingChanged(d: Deployment, w: World)
    ensures Preserved(d, w, w)
  {
  }

  lemma FoundIsCurrent(d: Deployment, w: World, all: seq<ReplicaSet>)
    requires Lists(w, all) && FindNew(d, Owned(d, all)).Some?
    ensures Current(w, FindNew(d, Owned(d, all)).value)
  {
    assert FindNew(d, Owned(d, all)).value in all;
  }

  method SyncDeployment(api: Api, found: Option<Deployment>, all: seq<ReplicaSet>, hash: Template -> string)
    returns (err: Option<ApiError>)
    requires DistinctNames(all)
    modifies api
    ensures found.None? || found.value.deleting ==>
              err == None && api.now == old(api.now) && api.writes == old(api.writes)
    ensures found.Some? && Lists(old(api.now), all)
            && NoCollision(found.value, old(api.now), Owned(found.value, all), hash) ==>
              && Preserved(found.value, old(api.now), api.now)
              && (api.Faultless() ==> err == None)
              && (!found.value.deleting && err == None ==>
                    && api.now == RolledOut(old(api.now), found.value, Owned(found.value, all), hash)
                    && api.writes == old(api.writes) + WritesOf(found.value, Owned(found.value, all)))
  {
    hide Preserved, Lists, RolledOut, WritesOf, NoCollision;
    if found.None? {
      return None;
    }
    var rsList := FilterReplicaSetsByOwner(all, found.value);
    if found.value.deleting {
      NothingChanged(found.value, api.now);
      return None;
    }
    err := Rollout(api, all, found.value, rsList, hash);
  }

  // ---------------------------------------------------------------- the replica sum

  /** All of the Deployment's replicas are at `c`, which has its template; every other owned ReplicaSet has none. */
  ghost predicate Settled(d: Deployment, w: World, c: string) {
    && c in w.sets && OwnedBy(d, w.sets[c]) && Matches(d, w.sets[c])
    && ReplicasOfRS(w.sets[c]) == ReplicasOf(d)
    && forall k :: k in w.sets && OwnedBy(d, w.sets[k]) && k != c ==> ReplicasOfRS(w.sets[k]) == 0
  }

  function OwnedNames(d: Deployment, w: World): set<string> {
    set k | k in w.sets && OwnedBy(d, w.sets[k])
  }

  ghost function Total(w: World, names: set<string>): int
    requires names <= w.sets.Keys
  {
    if names == {} then 0
    else
      var k :| k in names;
      ReplicasOfRS(w.sets[k]) + Total(w, names - {k})
  }

  lemma {:induction false} TotalOfOne(w: World, names: set<string>, c: string)
    requires names <= w.sets.Keys
    requires forall k :: k in names && k != c ==> ReplicasOfRS(w.sets[k]) == 0
    ensures Total(w, names) == if c in names then ReplicasOfRS(w.sets[c]) else 0
  {
    if names != {} {
      var k :| k in names && Total(w, names) == ReplicasOfRS(w.sets[k]) + Total(w, names - {k});
      TotalOfOne(w, names - {k}, c);
    }
  }

  lemma NewMatches(d: Deployment, hash: Template -> string)
    ensures Matches(d, NewReplicaSet(d, hash)) && OwnedBy(d, NewReplicaSet(d, hash))
  {
    assert d.template.labels[HASH_LABEL := hash(d.template)] - {HASH_LABEL} == d.template.labels - {HASH_LABEL};
  }

  function Chosen(d: Deployment, rsList: seq<ReplicaSet>, hash: Template -> string): string {
    var newRS := FindNew(d, rsList);
    if newRS.Some? then newRS.value.name else NewName(d, hash)
  }

  lemma ChosenAfter(d: Deployment, w: World, all: seq<ReplicaSet>, hash: Template -> string)
    requires Lists(w, all) && NoCollision(d, w, Owned(d, all), hash)
    ensures var w', c := RolledOut(w, d, Owned(d, all), hash), Chosen(d, Owned(d, all), hash);
            && c in w'.sets && OwnedBy(d, w'.sets[c]) && Matches(d, w'.sets[c])
            && ReplicasOfRS(w'.sets[c]) == ReplicasOf(d)
  {
    hide Lists, FindNew, Owned, Without, Stored, DistinctNames, AllScaled, NewName, EqualIgnoreHash;
    var newRS, c := FindNew(d, Owned(d, all)), Chosen(d, Owned(d, all), hash);
    var olds := Without(Owned(d, all), newRS);
    OldsListed(d, w, all);
    NewMatches(d, hash);
    var w1 := if newRS.Some? then Scaled(w, newRS.value, ReplicasOf(d)) else Created(w, NewReplicaSet(d, hash));
    AllScaledElsewhere(w1, olds, 0, c);
  }

  /** Every other ReplicaSet keeps all but its replica count, which is zero if it is owned and untouched if not. */
  lemma OthersAfter(d: Deployment, w: World, all: seq<ReplicaSet>, hash: Template -> string, k: string)
    requires Lists(w, all) && NoCollision(d, w, Owned(d, all), hash) && k != Chosen(d, Owned(d, all), hash)
    ensures var w' := RolledOut(w, d, Owned(d, all), hash);
            && (k in w'.sets <==> k in w.sets)
            && (k in w.sets ==> w'.sets[k] == w.sets[k].(replicas := w'.sets[k].replicas, rv := w'.sets[k].rv))
            && (k in w.sets && OwnedBy(d, w.sets[k]) ==> ReplicasOfRS(w'.sets[k]) == 0)
            && (k in w.sets && !OwnedBy(d, w.sets[k]) ==> w'.sets[k] == w.sets[k])
  {
    hide FindNew, Owned, Without, Stored, DistinctNames, AllScaled, NewName, EqualIgnoreHash;
    var newRS := FindNew(d, Owned(d, all));
    var olds := Without(Owned(d, all), newRS);
    OldsListed(d, w, all);
    var w1 := if newRS.Some? then Scaled(w, newRS.value, ReplicasOf(d)) else Created(w, NewReplicaSet(d, hash));
    assert k in w.sets <==> k in w1.sets;
    assert k in w.sets ==> w1.sets[k] == w.sets[k];
    if k in w.sets && OwnedBy(d, w.sets[k]) {
      assert w.sets[k] in all;
      AllScaledMember(w1, olds, 0, w.sets[k]);
    } else {
      AllScaledElsewhere(w1, olds, 0, k);
    }
  }

  lemma UpdatedValid(w: World, rs: ReplicaSet)
    requires ValidWorld(w) && rs.name in w.sets && w.sets[rs.name].uid == rs.uid
    ensures ValidWorld(Updated(w, rs))
  {
  }

  lemma CreatedValid(w: World, rs: ReplicaSet)
    requires ValidWorld(w) && rs.name !in w.sets
    ensures ValidWorld(Created(w, rs))
  {
  }

  lemma {:induction false} AllScaledValid(w: World, rsList: seq<ReplicaSet>, n: int)
    requires ValidWorld(w) && forall rs :: rs in rsList ==> rs.name in w.sets && w.sets[rs.name].uid == rs.uid
    ensures ValidWorld(AllScaled(w, rsList, n))
    ensures var w' := AllScaled(w, rsList, n);
            forall k :: k in w.sets ==> k in w'.sets && w'.sets[k].uid == w.sets[k].uid
  {
    hide ValidWorld;
    if rsList != [] {
      var init, last := rsList[..|rsList| - 1], rsList[|rsList| - 1];
      AllScaledValid(w, init, n);
      assert last in rsList;
      UpdatedValid(AllScaled(w, init, n), last.(replicas := Some(n)));
    }
  }

  lemma RolledOutValid(d: Deployment, w: World, all: seq<ReplicaSet>, hash: Template -> string)
    requires Lists(w, all) && NoCollision(d, w, Owned(d, all), hash)
    ensures ValidWorld(RolledOut(w, d, Owned(d, all), hash))
  {
    hide ValidWorld, FindNew, Owned, Without, Stored, DistinctNames, AllScaled, NewName;
    var newRS := FindNew(d, Owned(d, all));
    OldsListed(d, w, all);
    if newRS.Some? {
      UpdatedValid(w, newRS.value.(replicas := Some(ReplicasOf(d))));
      AllScaledValid(Scaled(w, newRS.value, ReplicasOf(d)), Without(Owned(d, all), newRS), 0);
    } else {
      CreatedValid(w, NewReplicaSet(d, hash));
      AllScaledValid(Created(w, NewReplicaSet(d, hash)), Without(Owned(d, all), newRS), 0);
    }
  }

  /** After an error-free sync the replicas over all owned ReplicaSets sum to the Deployment's, and all of them are at
      the one chosen as the new one. */
  lemma ReplicaSum(d: Deployment, w: World, all: seq<ReplicaSet>, hash: Template -> string)
    requires Lists(w, all) && NoCollision(d, w, Owned(d, all), hash)
    ensures var w' := RolledOut(w, d, Owned(d, all), hash);
            && ValidWorld(w') && Settled(d, w', Chosen(d, Owned(d, all), hash))
            && Total(w', OwnedNames(d, w')) == ReplicasOf(d)
            && forall k :: k in w.sets && !OwnedBy(d, w.sets[k]) && k != Chosen(d, Owned(d, all), hash) ==>
                 k in w'.sets && w'.sets[k] == w.sets[k]
  {
    hide Lists, Owned, RolledOut, Chosen, NoCollision, Matches, ValidWorld;
    var w', c := RolledOut(w, d, Owned(d, all), hash), Chosen(d, Owned(d, all), hash);
    RolledOutValid(d, w, all, hash);
    ChosenAfter(d, w, all, hash);
    forall k | k != c
      ensures k in w'.sets && OwnedBy(d, w'.sets[k]) ==> ReplicasOfRS(w'.sets[k]) == 0
      ensures k in w.sets && !OwnedBy(d, w.sets[k]) ==> k in w'.sets && w'.sets[k] == w.sets[k]
    {
      OthersAfter(d, w, all, hash, k);
    }
    TotalOfOne(w', OwnedNames(d, w'), c);
  }

  // ---------------------------------------------------------------- the next sync

  ghost predicate OneMatch(d: Deployment, w: World) {
    forall j, k :: IsMatch(d, w, j) && IsMatch(d, w, k) ==> j == k
  }

  /** An owned ReplicaSet with the Deployment's template. */
  predicate IsMatch(d: Deployment, w: World, k: string) {
    k in w.sets && OwnedBy(d, w.sets[k]) && Matches(d, w.sets[k])
  }

  /** Whatever order the lister returns, the next sync writes nothing. */
  ghost predicate Quiet(d: Deployment, w: World) {
    forall all :: Lists(w, all) ==> WritesOf(d, Owned(d, all)) == 0
  }

  lemma {:induction false} OffCountZero(rsList: seq<ReplicaSet>, n: int)
    ensures OffCount(rsList, n) == 0 <==> forall rs :: rs in rsList ==> ReplicasOfRS(rs) == n
  {
    if rsList != [] {
      var init, last := rsList[..|rsList| - 1], rsList[|rsList| - 1];
      OffCountZero(init, n);
      assert rsList == init + [last];
    }
  }

  lemma QuietWhenSettled(d: Deployment, w: World, c: string, all: seq<ReplicaSet>)
    requires Lists(w, all) && Settled(d, w, c) && (ReplicasOf(d) == 0 || OneMatch(d, w))
    ensures WritesOf(d, Owned(d, all)) == 0
  {
    hide Matches, FindNew, Owned, Without, DistinctNames, OffCount;
    var newRS := FindNew(d, Owned(d, all));
    assert w.sets[c] in all && w.sets[c] in Owned(d, all);
    assert newRS.Some? && newRS.value in all;
    assert IsMatch(d, w, newRS.value.name) && IsMatch(d, w, c);
    OffCountZero(Without(Owned(d, all), newRS), 0);
    forall rs | rs in Without(Owned(d, all), newRS) ensures ReplicasOfRS(rs) == 0 {
      assert rs in all;
    }
  }

  /** Some list of the given ReplicaSets. */
  lemma {:induction false} ListOf(w: World, names: set<string>) returns (all: seq<ReplicaSet>)
    requires ValidWorld(w) && names <= w.sets.Keys
    ensures DistinctNames(all)
    ensures forall rs :: rs in all <==> rs.name in names && w.sets[rs.name] == rs
  {
    all := [];
    if names != {} {
      var k :| k in names;
      var rest := ListOf(w, names - {k});
      all := [w.sets[k]] + rest;
      forall i | 0 <= i < |rest| ensures rest[i].name != k {
        assert rest[i] in rest;
      }
    }
  }

  lemma {:induction false} OwnedFirst(d: Deployment, rs: ReplicaSet, rest: seq<ReplicaSet>)
    requires OwnedBy(d, rs)
    ensures Owned(d, [rs] + rest) == [rs] + Owned(d, rest)
  {
    hide OwnedBy;
    var full := [rs] + rest;
    assert Owned(d, [rs]) == [rs] by { assert Owned(d, [rs][..0]) == []; }
    if rest == [] {
      assert full == [rs];
    } else {
      var init, tail := rest[..|rest| - 1], if OwnedBy(d, rest[|rest| - 1]) then [rest[|rest| - 1]] else [];
      assert full[..|full| - 1] == [rs] + init && full[|full| - 1] == rest[|rest| - 1];
      assert Owned(d, full) == Owned(d, [rs] + init) + tail;
      OwnedFirst(d, rs, init);
      assert ([rs] + Owned(d, init)) + tail == [rs] + (Owned(d, init) + tail);
    }
  }

  /** A list that puts a second match first makes the next sync write. */
  lemma SecondMatchWrites(d: Deployment, w: World, c: string, m: string)
    requires ValidWorld(w) && Settled(d, w, c) && ReplicasOf(d) != 0
    requires m != c && IsMatch(d, w, m)
    ensures !Quiet(d, w)
  {
    hide Matches, Without, Owned, DistinctNames;
    var rest := ListOf(w, w.sets.Keys - {m});
    var all := [w.sets[m]] + rest;
    assert DistinctNames(all) by { FirstDistinct(w.sets[m], rest); }
    assert Lists(w, all);
    OwnedFirst(d, w.sets[m], rest);
    assert FindNew(d, Owned(d, all)) == Some(w.sets[m]);
  }

  lemma FirstDistinct(rs: ReplicaSet, rest: seq<ReplicaSet>)
    requires DistinctNames(rest) && forall x :: x in rest ==> x.name != rs.name
    ensures DistinctNames([rs] + rest)
  {
    assert forall i | 0 <= i < |rest| :: rest[i] in rest;
  }

  /** After a sync the next one writes nothing, whatever order the lister returns, exactly when at most one owned
      ReplicaSet has the template or the Deployment asks for no replicas. */
  lemma NextSyncQuietIff(d: Deployment, w: World, c: string)
    requires ValidWorld(w) && Settled(d, w, c)
    ensures Quiet(d, w) <==> ReplicasOf(d) == 0 || OneMatch(d, w)
  {
    hide ValidWorld, Lists, Settled, Matches, Owned, WritesOf;
    if ReplicasOf(d) == 0 || OneMatch(d, w) {
      forall all | Lists(w, all) ensures WritesOf(d, Owned(d, all)) == 0 {
        QuietWhenSettled(d, w, c, all);
      }
    } else {
      var j, k :| IsMatch(d, w, j) && IsMatch(d, w, k) && j != k;
      SecondMatchWrites(d, w, c, if j == c then k else j);
    }
  }

  lemma MatchIsFound(d: Deployment, w: World, all: seq<ReplicaSet>, k: string)
    requires Lists(w, all) && IsMatch(d, w, k)
    ensures FindNew(d, Owned(d, all)).Some?
  {
    hide Matches, DistinctNames;
    assert w.sets[k] in all;
  }

  /** A rollout neither adds a second match nor takes one away. */
  lemma OneMatchKept(d: Deployment, w: World, all: seq<ReplicaSet>, hash: Template -> string)
    requires Lists(w, all) && NoCollision(d, w, Owned(d, all), hash)
    ensures OneMatch(d, RolledOut(w, d, Owned(d, all), hash)) <==> OneMatch(d, w)
  {
    hide Owned, RolledOut, EqualIgnoreHash, FindNew, DistinctNames, NewName;
    var w', c := RolledOut(w, d, Owned(d, all), hash), Chosen(d, Owned(d, all), hash);
    ChosenAfter(d, w, all, hash);
    forall k | k != c ensures IsMatch(d, w', k) <==> IsMatch(d, w, k) {
      OthersAfter(d, w, all, hash, k);
    }
    assert IsMatch(d, w', c);
    if FindNew(d, Owned(d, all)).Some? {
      assert FindNew(d, Owned(d, all)).value in all;
      assert IsMatch(d, w, c);
    } else {
      forall k ensures !IsMatch(d, w, k) {
        if IsMatch(d, w, k) {
          MatchIsFound(d, w, all, k);
        }
      }
    }
  }

  /** Two syncs in a row: the second writes nothing, whatever order the lister returns, exactly when before the first
      at most one owned ReplicaSet had the template or the Deployment asks for no replicas. */
  lemma SecondSyncQuietIff(d: Deployment, w: World, all: seq<ReplicaSet>, hash: Template -> string)
    requires Lists(w, all) && NoCollision(d, w, Owned(d, all), hash)
    ensures Quiet(d, RolledOut(w, d, Owned(d, all), hash)) <==> ReplicasOf(d) == 0 || OneMatch(d, w)
  {
    hide Lists, Owned, RolledOut, NoCollision, Quiet, OneMatch, Settled, Chosen;
    ReplicaSum(d, w, all, hash);
    OneMatchKept(d, w, all, hash);
    NextSyncQuietIff(d, RolledOut(w, d, Owned(d, all), hash), Chosen(d, Owned(d, all), hash));
  }

  /** Two owned matches make repeated syncs flap: the first sync puts all replicas at the one the lister names first,
      and a second one that lists the other first moves them over with two writes. */
  lemma TwoMatchesFlap(d: Deployment, w: World, a: ReplicaSet, b: ReplicaSet, hash: Template -> string)
    requires IsIdlePair(d, w, a, b) && ReplicasOf(d) != 0
    ensures var a' := a.(replicas := Some(ReplicasOf(d)), rv := w.next);
            var w' := RolledOut(w, d, Owned(d, [a, b]), hash);
            && Lists(w, [a, b]) && w'.sets == map[a.name := a', b.name := b]
            && Lists(w', [a', b]) && WritesOf(d, Owned(d, [a', b])) == 0
            && Lists(w', [b, a']) && WritesOf(d, Owned(d, [b, a'])) == 2
  {
    hide Lists, Owned, FindNew, Without, AllScaled, OffCount, Matches;
    var a' := a.(replicas := Some(ReplicasOf(d)), rv := w.next);
    MatchesStill(d, a, a');
    OfTwo(d, a, b);
    OfTwo(d, a', b);
    OfTwo(d, b, a');
    ListsTwo(w, a, b);
    var w' := RolledOut(w, d, [a, b], hash);
    assert w'.sets == map[a.name := a', b.name := b];
    ListsTwo(w', a', b);
    ListsTwo(w', b, a');
  }

  /** The namespace holds two matches of the Deployment, neither with replicas. */
  ghost predicate IsIdlePair(d: Deployment, w: World, a: ReplicaSet, b: ReplicaSet) {
    && OwnedBy(d, a) && OwnedBy(d, b) && Matches(d, a) && Matches(d, b)
    && ReplicasOfRS(a) == 0 && ReplicasOfRS(b) == 0
    && a.name != b.name && a.uid != b.uid
    && w.sets == map[a.name := a, b.name := b]
    && a.uid < w.next && a.rv < w.next && b.uid < w.next && b.rv < w.next
  }

  lemma MatchesStill(d: Deployment, rs: ReplicaSet, rs': ReplicaSet)
    requires Matches(d, rs) && rs'.template == rs.template
    ensures Matches(d, rs')
  {
  }

  /** A concrete such world, with one replica asked for: the second sync writes twice. */
  lemma FlapInstance(hash: Template -> string)
    ensures var t := Template(map[], "spec");
            var d := Deployment("d", 9, Some(1), t, false);
            var a, b := ReplicaSet("a", 0, 1, Some(9), Some(0), t), ReplicaSet("b", 2, 3, Some(9), Some(0), t);
            var w := World(map["a" := a, "b" := b], 4);
            var w' := RolledOut(w, d, Owned(d, [a, b]), hash);
            && Lists(w, [a, b])
            && exists all :: Lists(w', all) && WritesOf(d, Owned(d, all)) == 2
  {
    hide RolledOut, Lists, Owned, WritesOf;
    var t := Template(map[], "spec");
    var d := Deployment("d", 9, Some(1), t, false);
    var a, b := ReplicaSet("a", 0, 1, Some(9), Some(0), t), ReplicaSet("b", 2, 3, Some(9), Some(0), t);
    assert "a"[0] != "b"[0];
    TwoMatchesFlap(d, World(map["a" := a, "b" := b], 4), a, b, hash);
  }

  lemma ListsTwo(w: World, x: ReplicaSet, y: ReplicaSet)
    requires x.name != y.name && x.uid != y.uid && w.sets == map[x.name := x, y.name := y]
    requires x.uid < w.next && x.rv < w.next && y.uid < w.next && y.rv < w.next
    ensures Lists(w, [x, y])
  {
  }

  /** The loops on a list of two owned matches. */
  lemma OfTwo(d: Deployment, x: ReplicaSet, y: ReplicaSet)
    requires OwnedBy(d, x) && OwnedBy(d, y) && Matches(d, x) && x.uid != y.uid
    ensures Owned(d, [x, y]) == [x, y] && FindNew(d, [x, y]) == Some(x) && Without([x, y], Some(x)) == [y]
    ensures OffCount([y], 0) == if ReplicasOfRS(y) == 0 then 0 else 1
    ensures forall w :: AllScaled(w, [y], 0) == Scaled(w, y, 0)
  {
    assert [x, y][..1] == [x] && [x][..0] == [] && [y][..0] == [];
    assert Owned(d, [x]) == [x] && Without([x], Some(x)) == [];
  }
}
