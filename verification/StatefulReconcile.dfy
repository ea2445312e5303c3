/** One reconciliation of a StatefulSet: desired Pods in order, then one condemned, then one outdated Pod. */
module StatefulReconcile {

  import opened Wrappers
  import opened Decimal
  import opened PodNames
  import opened StatefulPods

  datatype ApiError = AlreadyExists | NotFound | OtherError

  datatype Request =
    | CreateClaim(claim: string)
    | CreatePod(pod: Pod)
    | UpdatePod(pod: Pod)
    | DeletePod(name: string)

  /** The Pods and claims in the set's namespace. */
  datatype World = World(pods: map<string, Pod>, claims: set<string>)

  /** A request that never arrives, or one that is carried out but whose answer is lost. */
  datatype Fault = Lost | AnswerLost

  /** The client: every request is logged; the script decides which ones go wrong on the way, and `atOnce` whether a
      delete removes its Pod at once or leaves it terminating. */
  class Api {
    var pods: map<string, Pod>
    var claims: set<string>
    var ticks: nat
    ghost var log: seq<Request>
    const script: nat -> Option<Fault>
    const atOnce: Pod -> bool

    ghost predicate Faultless() {
      forall t :: script(t) == None
    }

    function Now(): World
      reads this
    {
      World(pods, claims)
    }

    constructor (w: World, script: nat -> Option<Fault>, atOnce: Pod -> bool)
      ensures Now() == w && log == []
      ensures this.script == script && this.atOnce == atOnce
    {
      pods, claims, ticks, log := w.pods, w.claims, 0, [];
      this.script, this.atOnce := script, atOnce;
    }

    method Issue(ghost request: Request) returns (fault: Option<Fault>)
      modifies this`ticks, this`log
      ensures log == old(log) + [request]
      ensures Faultless() ==> fault == None
    {
      log := log + [request];
      fault := script(ticks);
      ticks := ticks + 1;
    }

    /** What the caller is told: the server's answer, unless it got lost. */
    function Told(fault: Option<Fault>, answer: Option<ApiError>): Option<ApiError> {
      if fault == None then answer else Some(OtherError)
    }

    method CreateClaim(claim: string) returns (err: Option<ApiError>)
      modifies this
      ensures log == old(log) + [Request.CreateClaim(claim)] && pods == old(pods)
      ensures old(claims) <= claims
      ensures err in {None, Some(AlreadyExists)} ==> claims == old(claims) + {claim}
      ensures Faultless() ==> err in {None, Some(AlreadyExists)}
    {
      var fault := Issue(Request.CreateClaim(claim));
      if fault == Some(Lost) {
        return Some(OtherError);
      }
      if claim in claims {
        return Told(fault, Some(AlreadyExists));
      }
      claims := claims + {claim};
      return Told(fault, None);
    }

    method CreatePod(pod: Pod) returns (err: Option<ApiError>)
      modifies this
      ensures log == old(log) + [Request.CreatePod(pod)] && claims == old(claims)
      ensures err == None ==> pod.name !in old(pods) && pods == old(pods)[pod.name := pod]
      ensures err == Some(AlreadyExists) ==> pod.name in old(pods) && pods == old(pods)
      ensures Faultless() ==> err in {None, Some(AlreadyExists)}
    {
      var fault := Issue(Request.CreatePod(pod));
      if fault == Some(Lost) {
        return Some(OtherError);
      }
      if pod.name in pods {
        return Told(fault, Some(AlreadyExists));
      }
      pods := pods[pod.name := pod];
      return Told(fault, None);
    }

    method UpdatePod(pod: Pod) returns (err: Option<ApiError>)
      modifies this
      ensures log == old(log) + [Request.UpdatePod(pod)] && claims == old(claims)
      ensures err == None ==> pod.name in old(pods) && pods == old(pods)[pod.name := pod]
      ensures err == Some(NotFound) ==> pod.name !in old(pods) && pods == old(pods)
      ensures Faultless() ==> err in {None, Some(NotFound)}
    {
      var fault := Issue(Request.UpdatePod(pod));
      if fault == Some(Lost) {
        return Some(OtherError);
      }
      if pod.name !in pods {
        return Told(fault, Some(NotFound));
      }
      pods := pods[pod.name := pod];
      return Told(fault, None);
    }

    method DeletePod(name: string) returns (err: Option<ApiError>)
      modifies this
      ensures log == old(log) + [Request.DeletePod(name)] && claims == old(claims)
      ensures err == None ==> name in old(pods) && pods == Deleted(old(pods), name, atOnce)
      ensures err == Some(NotFound) ==> name !in old(pods) && pods == old(pods)
      ensures Faultless() ==> err in {None, Some(NotFound)}
    {
      var fault := Issue(Request.DeletePod(name));
      if fault == Some(Lost) {
        return Some(OtherError);
      }
      if name !in pods {
        return Told(fault, Some(NotFound));
      }
      pods := Deleted(pods, name, atOnce);
      return Told(fault, None);
    }
  }

  function Deleted(pods: map<string, Pod>, name: string, atOnce: Pod -> bool): map<string, Pod>
    requires name in pods
  {
    if atOnce(pods[name]) then pods - {name} else pods[name := pods[name].(terminating := true)]
  }

  // ---------------------------------------------------------------- looking at the listed Pods

  predicate IsOrdinal(set_: StatefulSet, pod: Pod, n: int) {
    ParentNameAndOrdinal(pod.name) == (set_.name, n)
  }

  /** The first listed Pod of that ordinal. */
  function Find(set_: StatefulSet, pods: seq<Pod>, n: int): (r: Option<Pod>)
    ensures r.Some? ==> r.value in pods && IsOrdinal(set_, r.value, n)
    ensures r.None? ==> forall p :: p in pods ==> !IsOrdinal(set_, p, n)
  {
    if pods == [] then None
    else if IsOrdinal(set_, pods[0], n) then Some(pods[0])
    else Find(set_, pods[1..], n)
  }

  predicate Condemned(set_: StatefulSet, name: string) {
    OrdinalOf(name) >= 0 && !PodInOrdinalRange(set_, name)
  }

  /** `p` is a condemned Pod, and none listed has a higher ordinal. */
  ghost predicate HighestCondemned(set_: StatefulSet, pods: seq<Pod>, p: Pod) {
    && p in pods && Condemned(set_, p.name)
    && forall q :: q in pods && Condemned(set_, q.name) ==> OrdinalOf(q.name) <= OrdinalOf(p.name)
  }

  ghost predicate NoneCondemned(set_: StatefulSet, pods: seq<Pod>) {
    forall q :: q in pods ==> !Condemned(set_, q.name)
  }

  predicate OutdatedAt(set_: StatefulSet, pods: seq<Pod>, n: int) {
    var p := Find(set_, pods, n);
    p.Some? && !PodSpecMatches(set_, p.value)
  }

  /** Ordinals below `n` were all observed present and not terminating. */
  ghost predicate Observed(set_: StatefulSet, pods: seq<Pod>, n: int) {
    forall j | 0 <= j < n :: var p := Find(set_, pods, j); p.Some? && !p.value.terminating
  }

  method FindPodByOrdinal(set_: StatefulSet, pods: seq<Pod>, ordinal: int) returns (r: Option<Pod>)
    ensures r == Find(set_, pods, ordinal)
  {
    for i := 0 to |pods|
      invariant Find(set_, pods, ordinal) == Find(set_, pods[i..], ordinal)
    {
      var (parent, podOrdinal) := ParentNameAndOrdinal(pods[i].name);
      if parent == set_.name && podOrdinal == ordinal {
        return Some(pods[i]);
      }
    }
    return None;
  }

  method FirstCondemnedPod(set_: StatefulSet, pods: seq<Pod>) returns (r: Option<Pod>)
    ensures r.None? <==> NoneCondemned(set_, pods)
    ensures r.Some? ==> HighestCondemned(set_, pods, r.value)
  {
    r := None;
    for i := 0 to |pods|
      invariant r.None? <==> NoneCondemned(set_, pods[..i])
      invariant r.Some? ==> HighestCondemned(set_, pods[..i], r.value)
    {
      assert pods[..i + 1] == pods[..i] + [pods[i]];
      var ordinal := OrdinalOf(pods[i].name);
      if ordinal < 0 || PodInOrdinalRange(set_, pods[i].name) {
        continue;
      }
      assert Condemned(set_, pods[i].name) && pods[i] in pods[..i + 1];
      if r.None? || ordinal > OrdinalOf(r.value.name) {
        r := Some(pods[i]);
      }
    }
    assert pods[..|pods|] == pods;
  }

  /** The Pod at an ordinal, if it is outdated. */
  method OutdatedPodAt(set_: StatefulSet, pods: seq<Pod>, ordinal: int) returns (r: Option<Pod>)
    ensures r == if OutdatedAt(set_, pods, ordinal) then Find(set_, pods, ordinal) else None
  {
    var pod := FindPodByOrdinal(set_, pods, ordinal);
    if pod.None? {
      return None;
    }
    var matches := CheckPodSpec(set_, pod.value);
    return if matches then None else pod;
  }

  method LargestOutdatedPod(set_: StatefulSet, pods: seq<Pod>) returns (r: Option<Pod>)
    ensures r.None? ==> forall n | 0 <= n <= EndOrdinalOf(set_) :: !OutdatedAt(set_, pods, n)
    ensures r.Some? ==> HighestOutdated(set_, pods, r.value)
  {
    var ordinal := EndOrdinalOf(set_);
    while ordinal >= 0
      invariant ordinal <= EndOrdinalOf(set_)
      invariant forall n | ordinal < n <= EndOrdinalOf(set_) && 0 <= n :: !OutdatedAt(set_, pods, n)
    {
      var pod := OutdatedPodAt(set_, pods, ordinal);
      if pod.Some? {
        return pod;
      }
      ordinal := ordinal - 1;
    }
    return None;
  }

  method CheckPodSpec(set_: StatefulSet, pod: Pod) returns (r: bool)
    ensures r <==> PodSpecMatches(set_, pod)
  {
    if pod.spec.hostname != pod.name || pod.spec.subdomain != set_.serviceName {
      return false;
    }
    var storage := CheckStorage(set_, pod);
    return storage && pod.spec.rest == set_.templateSpec.rest;
  }

  // ---------------------------------------------------------------- what may be requested

  /** The claim of some template for some desired ordinal. */
  ghost predicate OwnClaim(set_: StatefulSet, claim: string) {
    exists t, n :: t in TemplateNames(set_) && 0 <= n <= EndOrdinalOf(set_) && claim == ClaimName(set_.name, t, n)
  }

  /** Requests that repair what is there: the set's own claims, and identities of listed Pods. */
  ghost predicate IsRepair(set_: StatefulSet, pods: seq<Pod>, r: Request) {
    || (r.CreateClaim? && OwnClaim(set_, r.claim))
    || (r.UpdatePod? && exists q :: q in pods && !IdentityMatches(set_, q) && r.pod == Identified(set_, q))
  }

  ghost predicate AllRepairs(set_: StatefulSet, pods: seq<Pod>, requests: seq<Request>) {
    forall r :: r in requests ==> IsRepair(set_, pods, r)
  }

  /** When a Pod may be created: the ordinals below were observed running, its own was not, and every claim its
      volumes name is there. */
  ghost predicate CreateAllowed(set_: StatefulSet, pods: seq<Pod>, known: set<string>, pod: Pod) {
    exists n: nat ::
      && n <= EndOrdinalOf(set_)
      && Observed(set_, pods, n) && Find(set_, pods, n).None?
      && BuiltFor(set_, n, pod)
      && Needed(set_, n) <= known
  }

  /** When a Pod may be deleted: every desired one was observed running, and it is the highest condemned Pod, or
      nothing is condemned and it is the highest outdated one. */
  ghost predicate DeleteAllowed(set_: StatefulSet, pods: seq<Pod>, name: string) {
    && Observed(set_, pods, EndOrdinalOf(set_) + 1)
    && exists p: Pod ::
         && p.name == name && !p.terminating
         && (|| HighestCondemned(set_, pods, p)
             || (NoneCondemned(set_, pods) && HighestOutdated(set_, pods, p)))
  }

  ghost predicate HighestOutdated(set_: StatefulSet, pods: seq<Pod>, p: Pod) {
    exists n ::
      && 0 <= n <= EndOrdinalOf(set_) && OutdatedAt(set_, pods, n) && Find(set_, pods, n) == Some(p)
      && forall j | n < j <= EndOrdinalOf(set_) :: !OutdatedAt(set_, pods, j)
  }

  /** Repairs, then at most one create, as the last request and only when allowed. */
  ghost predicate CreateSafe(set_: StatefulSet, pods: seq<Pod>, known: set<string>, requests: seq<Request>) {
    || AllRepairs(set_, pods, requests)
    || (&& requests != []
        && AllRepairs(set_, pods, requests[..|requests| - 1])
        && requests[|requests| - 1].CreatePod?
        && CreateAllowed(set_, pods, known, requests[|requests| - 1].pod))
  }

  /** Repairs, then one delete, as the last request and only when allowed. */
  ghost predicate DeleteSafe(set_: StatefulSet, pods: seq<Pod>, requests: seq<Request>) {
    && requests != []
    && AllRepairs(set_, pods, requests[..|requests| - 1])
    && requests[|requests| - 1].DeletePod?
    && DeleteAllowed(set_, pods, requests[|requests| - 1].name)
  }

  /** Ordering safety: repairs, then at most one create or delete, as the last request, and only when allowed. */
  ghost predicate OrderSafe(set_: StatefulSet, pods: seq<Pod>, known: set<string>, requests: seq<Request>) {
    CreateSafe(set_, pods, known, requests) || DeleteSafe(set_, pods, requests)
  }

  // ---------------------------------------------------------------- what one reconciliation does to the world

  function Desired(set_: StatefulSet): nat {
    if ReplicasOf(set_) < 0 then 0 else ReplicasOf(set_)
  }

  /** Every Pod is a member of the set, filed under its name in the set's namespace. */
  ghost predicate ValidWorld(set_: StatefulSet, w: World) {
    forall k :: k in w.pods ==> IsMemberOf(set_.name, k) && w.pods[k].name == k && w.pods[k].namespace == set_.namespace
  }

  /** The listers are up to date: the Pods listed, in any order, and the claims known are the world's. */
  ghost predicate FreshView(set_: StatefulSet, w: World, pods: seq<Pod>, view: set<string>) {
    && ValidWorld(set_, w)
    && view == w.claims
    && forall p :: p in pods <==> p.name in w.pods && w.pods[p.name] == p
  }

  function NeededOf(set_: StatefulSet, names: set<string>, n: int): set<string> {
    set t | t in names :: ClaimName(set_.name, t, n)
  }

  /** The claims a Pod's volumes name. */
  function Needed(set_: StatefulSet, n: int): set<string> {
    NeededOf(set_, TemplateNames(set_), n)
  }

  function NeededBelow(set_: StatefulSet, n: nat): set<string> {
    set t, j | t in TemplateNames(set_) && 0 <= j < n :: ClaimName(set_.name, t, j)
  }

  function Repaired(set_: StatefulSet, pod: Pod): Pod {
    if IdentityMatches(set_, pod) then pod else Identified(set_, pod)
  }

  function RepairedBelow(set_: StatefulSet, pods: map<string, Pod>, n: nat): map<string, Pod> {
    map k | k in pods :: if 0 <= OrdinalOf(k) < n then Repaired(set_, pods[k]) else pods[k]
  }

  /** The world once the desired Pods below `n` have their claims and their identity. */
  function Partial(set_: StatefulSet, w: World, n: nat): World {
    World(RepairedBelow(set_, w.pods, n), w.claims + NeededBelow(set_, n))
  }

  predicate Blocked(set_: StatefulSet, w: World, n: nat) {
    var name := PodName(set_.name, n);
    name !in w.pods || w.pods[name].terminating
  }

  ghost predicate NoneBlocked(set_: StatefulSet, w: World, n: nat) {
    forall j: nat | j < n :: !Blocked(set_, w, j)
  }

  /** The first desired ordinal that is missing or terminating; `Desired` when there is none. */
  ghost predicate StopsAt(set_: StatefulSet, w: World, n: nat) {
    && n <= Desired(set_)
    && NoneBlocked(set_, w, n)
    && (n < Desired(set_) ==> Blocked(set_, w, n))
  }

  ghost predicate Created(set_: StatefulSet, w: World, n: nat, w': World) {
    exists pod ::
      && BuiltFor(set_, n, pod)
      && w' == World(Partial(set_, w, n).pods[pod.name := pod], Partial(set_, w, n + 1).claims)
  }

  ghost predicate TopCondemned(set_: StatefulSet, w: World, name: string) {
    && name in w.pods && Condemned(set_, name)
    && forall k :: k in w.pods && Condemned(set_, k) ==> OrdinalOf(k) <= OrdinalOf(name)
  }

  predicate Outdated(set_: StatefulSet, w: World, n: nat) {
    var name := PodName(set_.name, n);
    name in w.pods && !PodSpecMatches(set_, w.pods[name])
  }

  ghost predicate TopOutdated(set_: StatefulSet, w: World, n: nat) {
    && n < Desired(set_) && Outdated(set_, w, n)
    && forall j: nat | n < j < Desired(set_) :: !Outdated(set_, w, j)
  }

  /** The Pod to delete once all desired ones run: the top condemned one, else the top outdated one. */
  ghost predicate Victim(set_: StatefulSet, w: World, name: string) {
    || TopCondemned(set_, w, name)
    || ((forall k :: k in w.pods ==> !Condemned(set_, k))
        && exists n: nat :: TopOutdated(set_, w, n) && name == PodName(set_.name, n))
  }

  function DeletedUnless(terminating: bool, u: World, name: string, atOnce: Pod -> bool): World
    requires name in u.pods
  {
    if terminating then u else World(Deleted(u.pods, name, atOnce), u.claims)
  }

  ghost predicate Trimmed(set_: StatefulSet, w: World, u: World, w': World, atOnce: Pod -> bool) {
    if exists name :: Victim(set_, w, name)
    then exists name :: Victim(set_, w, name) && name in u.pods &&
           w' == DeletedUnless(u.pods[name].terminating, u, name, atOnce)
    else w' == u
  }

  /** One reconciliation with fresh views and no API errors. */
  ghost predicate NextWorld(set_: StatefulSet, w: World, w': World, atOnce: Pod -> bool) {
    exists n: nat :: StopsAt(set_, w, n) && NextAt(set_, w, n, w', atOnce)
  }

  ghost predicate NextAt(set_: StatefulSet, w: World, n: nat, w': World, atOnce: Pod -> bool) {
    if n == Desired(set_) then Trimmed(set_, w, Partial(set_, w, n), w', atOnce)
    else StoppedAt(set_, w, n, w')
  }

  /** The loop over the desired ordinals got to `n` and left the world as `now`. */
  ghost predicate Reached(set_: StatefulSet, w: World, n: nat, now: World) {
    now == Partial(set_, w, n) && NoneBlocked(set_, w, n)
  }

  /** The loop stopped at `n`. */
  ghost predicate Stopped(set_: StatefulSet, w: World, n: nat, now: World) {
    StopsAt(set_, w, n) && n < Desired(set_) && StoppedAt(set_, w, n, now)
  }

  /** Stopped at a desired ordinal: nothing more for a terminating Pod, a new Pod for a missing one. */
  ghost predicate StoppedAt(set_: StatefulSet, w: World, n: nat, w': World) {
    if PodName(set_.name, n) in w.pods then w' == Partial(set_, w, n) else Created(set_, w, n, w')
  }

  lemma FreshFind(set_: StatefulSet, w: World, pods: seq<Pod>, view: set<string>, n: nat)
    requires FreshView(set_, w, pods, view) && n <= MAX_ORDINAL
    ensures Find(set_, pods, n) == var k := PodName(set_.name, n); if k in w.pods then Some(w.pods[k]) else None
  {
    var k := PodName(set_.name, n);
    ParseOfPodName(set_.name, n);
    var found := Find(set_, pods, n);
    if found.Some? {
      assert IsMemberOf(set_.name, found.value.name);
    }
    assert k in w.pods ==> w.pods[k] in pods;
  }

  lemma OnlyKeyOfOrdinal(set_: StatefulSet, w: World, n: nat, k: string)
    requires ValidWorld(set_, w) && n <= MAX_ORDINAL && k in w.pods
    ensures OrdinalOf(k) >= 0
    ensures OrdinalOf(k) == n <==> k == PodName(set_.name, n)
  {
    assert IsMemberOf(set_.name, k);
    ParseOfPodName(set_.name, n);
  }

  lemma RepairedStep(set_: StatefulSet, pods: map<string, Pod>, n: nat, k: string)
    requires k in pods
    requires forall j :: j in pods ==> (OrdinalOf(j) == n <==> j == k)
    ensures RepairedBelow(set_, pods, n)[k] == pods[k]
    ensures RepairedBelow(set_, pods, n + 1) == RepairedBelow(set_, pods, n)[k := Repaired(set_, pods[k])]
  {
    var a, b := RepairedBelow(set_, pods, n + 1), RepairedBelow(set_, pods, n)[k := Repaired(set_, pods[k])];
    assert a.Keys == b.Keys;
    forall j | j in a ensures a[j] == b[j] {
      assert j == k || OrdinalOf(j) != n;
    }
  }

  lemma PartialStep(set_: StatefulSet, w: World, n: nat)
    requires ValidWorld(set_, w) && n <= MAX_ORDINAL && PodName(set_.name, n) in w.pods
    ensures var k := PodName(set_.name, n);
            && k in Partial(set_, w, n).pods && Partial(set_, w, n).pods[k] == w.pods[k]
            && Partial(set_, w, n + 1).pods == Partial(set_, w, n).pods[k := Repaired(set_, w.pods[k])]
            && Partial(set_, w, n + 1).claims == Partial(set_, w, n).claims + Needed(set_, n)
  {
    NeededStep(set_, n);
    forall j | j in w.pods ensures OrdinalOf(j) == n <==> j == PodName(set_.name, n) {
      OnlyKeyOfOrdinal(set_, w, n, j);
    }
    RepairedStep(set_, w.pods, n, PodName(set_.name, n));
  }

  lemma NeededStep(set_: StatefulSet, n: nat)
    ensures NeededBelow(set_, n + 1) == NeededBelow(set_, n) + Needed(set_, n)
  {
    forall c ensures c in NeededBelow(set_, n + 1) <==> c in NeededBelow(set_, n) + Needed(set_, n) {
      if c in NeededBelow(set_, n + 1) {
        var t, j :| t in TemplateNames(set_) && 0 <= j < n + 1 && c == ClaimName(set_.name, t, j);
        assert j < n || j == n;
      }
    }
  }

  // ---------------------------------------------------------------- the imperative reconciliation

  method CreateStatefulClaim(api: Api, view: set<string>, set_: StatefulSet, pod: Pod, template: ClaimTemplate)
    returns (err: Option<ApiError>)
    modifies api
    ensures var claim := ClaimName(set_.name, template.name, OrdinalOf(pod.name));
            && api.log == old(api.log) + (if claim in view then [] else [CreateClaim(claim)])
            && (err == None ==> api.claims == old(api.claims) + if claim in view then {} else {claim})
    ensures api.Faultless() ==> err == None
    ensures api.pods == old(api.pods) && old(api.claims) <= api.claims
  {
    var claim := ClaimName(set_.name, template.name, OrdinalOf(pod.name));
    if claim !in view {
      err := api.CreateClaim(claim);
      if err.Some? && err != Some(AlreadyExists) {
        return err;
      }
    }
    return None;
  }

  /** Creates the claims of one Pod, in whatever order the map is walked. */
  method CreateStatefulClaims(api: Api, view: set<string>, set_: StatefulSet, pod: Pod, ghost pods: seq<Pod>)
    returns (err: Option<ApiError>)
    requires AllRepairs(set_, pods, api.log) && PodInOrdinalRange(set_, pod.name)
    modifies api
    ensures AllRepairs(set_, pods, api.log)
    ensures err == None ==> Needed(set_, OrdinalOf(pod.name)) <= view + api.claims
    ensures api.pods == old(api.pods)
    ensures err == None && view <= old(api.claims) ==>
              api.claims == old(api.claims) + Needed(set_, OrdinalOf(pod.name))
    ensures api.Faultless() ==> err == None
  {
    hide ClaimName, OrdinalOf, TemplateNames, IdentityMatches, Identified;
    var templates := VolumeClaimTemplatesByName(set_);
    var todo := templates.Keys;
    ghost var ordinal := OrdinalOf(pod.name);
    while todo != {}
      invariant todo <= templates.Keys
      invariant AllRepairs(set_, pods, api.log)
      invariant NeededOf(set_, templates.Keys - todo, ordinal) <= view + api.claims
      invariant api.pods == old(api.pods)
      invariant view <= old(api.claims) ==>
                  api.claims == old(api.claims) + NeededOf(set_, templates.Keys - todo, ordinal)
    {
      var name :| name in todo;
      err := CreateStatefulClaim(api, view, set_, pod, templates[name]);
      assert OwnClaim(set_, ClaimName(set_.name, name, ordinal));
      ghost var claim := ClaimName(set_.name, name, ordinal);
      if err.Some? {
        return err;
      }
      assert templates.Keys - (todo - {name}) == templates.Keys - todo + {name};
      assert NeededOf(set_, templates.Keys - todo + {name}, ordinal)
          == NeededOf(set_, templates.Keys - todo, ordinal) + {claim};
      todo := todo - {name};
    }
    assert templates.Keys - {} == TemplateNames(set_);
    return None;
  }

  method CreateStatefulPod(api: Api, view: set<string>, set_: StatefulSet, pod: Pod, ghost n: nat, ghost pods: seq<Pod>)
    returns (err: Option<ApiError>)
    requires AllRepairs(set_, pods, api.log)
    requires n <= EndOrdinalOf(set_) && Observed(set_, pods, n) && Find(set_, pods, n).None?
    requires BuiltFor(set_, n, pod) && OrdinalOf(pod.name) == n
    modifies api
    ensures CreateSafe(set_, pods, view + api.claims, api.log)
    ensures err == None && view <= old(api.claims) && pod.name !in old(api.pods) ==>
              && api.claims == old(api.claims) + Needed(set_, n)
              && api.pods == old(api.pods)[pod.name := pod]
    ensures api.Faultless() ==> err == None
  {
    err := CreateStatefulClaims(api, view, set_, pod, pods);
    if err.Some? {
      return err;
    }
    ghost var before := api.log;
    assert CreateAllowed(set_, pods, view + api.claims, pod);
    err := api.CreatePod(pod);
    ghost var after := api.log;
    assert after == before + [CreatePod(pod)];
    assert after[..|after| - 1] == before;
    if err == Some(AlreadyExists) {
      return None;
    }
  }

  method UpdateStatefulPod(api: Api, set_: StatefulSet, pod: Pod, ghost pods: seq<Pod>)
    returns (err: Option<ApiError>)
    requires AllRepairs(set_, pods, api.log) && pod in pods
    modifies api
    ensures AllRepairs(set_, pods, api.log)
    ensures api.claims == old(api.claims)
    ensures IsMemberOf(set_.name, pod.name) && pod.name in old(api.pods) && old(api.pods)[pod.name] == pod ==>
              && (err == None ==> api.pods == old(api.pods)[pod.name := Repaired(set_, pod)])
              && (api.Faultless() ==> err == None)
  {
    hide PodName, Identified, IsMemberOf, IdentityMatches;
    if IdentityMatches(set_, pod) {
      return None;
    }
    var updated := new PodRef(pod);
    UpdateIdentity(set_, updated);
    if IsMemberOf(set_.name, pod.name) {
      IdentifiedMember(set_, pod);
    }
    err := api.UpdatePod(updated.pod);
    assert IsRepair(set_, pods, UpdatePod(updated.pod));
  }

  lemma NothingReconciledYet(set_: StatefulSet, w: World, pods: seq<Pod>)
    ensures Reached(set_, w, 0, w) && AllRepairs(set_, pods, [])
    ensures forall n | n <= 0 :: Observed(set_, pods, n)
  {
    assert RepairedBelow(set_, w.pods, 0) == w.pods;
  }

  /** One desired Pod that is there and running: its claims, then its identity. */
  method RepairPod(api: Api, view: set<string>, set_: StatefulSet, pod: Pod, ghost n: nat, ghost pods: seq<Pod>,
                   ghost w: World) returns (err: Option<ApiError>)
    requires AllRepairs(set_, pods, api.log)
    requires Find(set_, pods, n) == Some(pod) && n <= EndOrdinalOf(set_) && InRange(set_)
    modifies api
    ensures AllRepairs(set_, pods, api.log)
    ensures FreshView(set_, w, pods, view) && old(api.Now()) == Partial(set_, w, n) ==>
              && (err == None ==> api.Now() == Partial(set_, w, n + 1))
              && (api.Faultless() ==> err == None)
  {
    if FreshView(set_, w, pods, view) {
      FreshFind(set_, w, pods, view, n);
      PartialStep(set_, w, n);
      assert IsMemberOf(set_.name, pod.name);
      assert pod.name == PodName(set_.name, n);
    }
    err := CreateStatefulClaims(api, view, set_, pod, pods);
    if err.Some? {
      return err;
    }
    err := UpdateStatefulPod(api, set_, pod, pods);
  }

  /** A missing desired Pod: build it, create its claims, create it. */
  method CreateMissing(api: Api, view: set<string>, set_: StatefulSet, n: nat, ghost pods: seq<Pod>,
                       ghost w: World) returns (err: Option<ApiError>)
    requires AllRepairs(set_, pods, api.log)
    requires InRange(set_) && n <= EndOrdinalOf(set_) && Observed(set_, pods, n) && Find(set_, pods, n).None?
    modifies api
    ensures CreateSafe(set_, pods, view + api.claims, api.log)
    ensures FreshView(set_, w, pods, view) && old(api.Now()) == Partial(set_, w, n) ==>
              && PodName(set_.name, n) !in w.pods
              && (err == None ==> Created(set_, w, n, api.Now()))
    ensures api.Faultless() ==> err == None
  {
    hide Find, Observed, Wanted, PodName, OrdinalOf, NeededBelow, Needed, CreateSafe, AllRepairs;
    if FreshView(set_, w, pods, view) {
      FreshFind(set_, w, pods, view, n);
    }
    NeededStep(set_, n);
    var newPod := NewStatefulSetPod(set_, n);
    WantedName(set_, n, newPod);
    err := CreateStatefulPod(api, view, set_, newPod, n, pods);
  }

  lemma RepairsAreSafe(set_: StatefulSet, pods: seq<Pod>, known: set<string>, requests: seq<Request>)
    ensures AllRepairs(set_, pods, requests) ==> CreateSafe(set_, pods, known, requests)
  {
  }

  /** What follows from each of the three cases a turn of the loop distinguishes. */
  lemma FreshTurn(set_: StatefulSet, w: World, pods: seq<Pod>, view: set<string>, n: nat, now: World)
    requires InRange(set_) && n <= EndOrdinalOf(set_) && FreshView(set_, w, pods, view) && Reached(set_, w, n, now)
    ensures now == Partial(set_, w, n)
    ensures Find(set_, pods, n).None? ==> forall w' :: Created(set_, w, n, w') ==> Stopped(set_, w, n, w')
    ensures Find(set_, pods, n).Some? && Find(set_, pods, n).value.terminating ==> Stopped(set_, w, n, now)
    ensures Find(set_, pods, n).Some? && !Find(set_, pods, n).value.terminating ==>
              Reached(set_, w, n + 1, Partial(set_, w, n + 1))
  {
    hide Find, IsOrdinal, PodName, Created, Partial, FreshView;
    FreshFind(set_, w, pods, view, n);
  }

  /** One turn of the loop over the desired ordinals. */
  method ReconcileOrdinal(api: Api, view: set<string>, set_: StatefulSet, pods: seq<Pod>, n: nat,
                          ghost w: World) returns (next: bool, err: Option<ApiError>)
    requires AllRepairs(set_, pods, api.log)
    requires InRange(set_) && n <= EndOrdinalOf(set_) && Observed(set_, pods, n)
    modifies api
    ensures next ==> err == None && AllRepairs(set_, pods, api.log) && Observed(set_, pods, n + 1)
    ensures !next ==> CreateSafe(set_, pods, view + api.claims, api.log)
    ensures FreshView(set_, w, pods, view) && Reached(set_, w, n, old(api.Now())) ==>
              && (next ==> Reached(set_, w, n + 1, api.Now()))
              && (!next && err == None ==> Stopped(set_, w, n, api.Now()))
              && (api.Faultless() ==> err == None)
  {
    hide Find, IsOrdinal, PodName, Created, Partial, AllRepairs, FreshView, CreateSafe, Reached, Stopped;
    ghost var fair := FreshView(set_, w, pods, view) && Reached(set_, w, n, api.Now());
    var pod := FindPodByOrdinal(set_, pods, n);
    if pod.None? {
      if fair { FreshTurn(set_, w, pods, view, n, api.Now()); }
      err := CreateMissing(api, view, set_, n, pods, w);
      return false, err;
    }
    if pod.value.terminating {
      RepairsAreSafe(set_, pods, view + api.claims, api.log);
      if fair { FreshTurn(set_, w, pods, view, n, api.Now()); }
      return false, None;
    }
    if fair { FreshTurn(set_, w, pods, view, n, api.Now()); }
    err := RepairPod(api, view, set_, pod.value, n, pods, w);
    RepairsAreSafe(set_, pods, view + api.claims, api.log);
    return err.None?, err;
  }

  method ReconcileDesiredPods(api: Api, view: set<string>, set_: StatefulSet, pods: seq<Pod>)
    returns (more: bool, err: Option<ApiError>, ghost stop: nat)
    requires InRange(set_) && api.log == []
    modifies api
    ensures more ==> err == None && AllRepairs(set_, pods, api.log) && Observed(set_, pods, EndOrdinalOf(set_) + 1)
    ensures !more ==> CreateSafe(set_, pods, view + api.claims, api.log)
    ensures FreshView(set_, old(api.Now()), pods, view) ==>
              && (more ==> Reached(set_, old(api.Now()), Desired(set_), api.Now()))
              && (!more && err == None ==> Stopped(set_, old(api.Now()), stop, api.Now()))
              && (api.Faultless() ==> err == None)
  {
    hide Find, FreshView, Stopped, CreateSafe, Reached, Observed, AllRepairs;
    ghost var w := api.Now();
    NothingReconciledYet(set_, w, pods);
    var end := EndOrdinalOf(set_);
    var ordinal := 0;
    while ordinal <= end
      invariant 0 <= ordinal && (ordinal <= end + 1 || ordinal == 0)
      invariant AllRepairs(set_, pods, api.log)
      invariant Observed(set_, pods, ordinal)
      invariant FreshView(set_, w, pods, view) ==> Reached(set_, w, ordinal, api.Now())
      decreases end - ordinal
    {
      var next;
      next, err := ReconcileOrdinal(api, view, set_, pods, ordinal, w);
      if !next {
        return false, err, ordinal;
      }
      ordinal := ordinal + 1;
    }
    return true, None, ordinal;
  }

  method ReconcileCondemnedPod(api: Api, set_: StatefulSet, pods: seq<Pod>)
    returns (more: bool, err: Option<ApiError>, ghost victim: Option<Pod>)
    requires AllRepairs(set_, pods, api.log) && Observed(set_, pods, EndOrdinalOf(set_) + 1)
    modifies api
    ensures more ==> err == None && victim == None && NoneCondemned(set_, pods) && api.log == old(api.log)
                     && api.Now() == old(api.Now())
    ensures !more ==> victim.Some? && HighestCondemned(set_, pods, victim.value)
    ensures !more ==> AllRepairs(set_, pods, api.log) || DeleteSafe(set_, pods, api.log)
    ensures !more && err == None && victim.value.name in old(api.pods) ==>
              api.Now() == DeletedUnless(victim.value.terminating, old(api.Now()), victim.value.name, api.atOnce)
    ensures api.Faultless() ==> err == None
  {
    var condemned := FirstCondemnedPod(set_, pods);
    if condemned.None? {
      return true, None, None;
    }
    victim := condemned;
    if condemned.value.terminating {
      return false, None, victim;
    }
    err := DeleteListed(api, set_, condemned.value, pods);
    return false, err, victim;
  }

  /** A delete by name; a Pod already gone is no error. */
  method DeleteListed(api: Api, set_: StatefulSet, pod: Pod, ghost pods: seq<Pod>)
    returns (err: Option<ApiError>)
    requires AllRepairs(set_, pods, api.log) && DeleteAllowed(set_, pods, pod.name)
    modifies api
    ensures DeleteSafe(set_, pods, api.log)
    ensures err == None && pod.name in old(api.pods) ==>
              api.Now() == World(Deleted(old(api.pods), pod.name, api.atOnce), old(api.claims))
    ensures api.Faultless() ==> err == None
  {
    ghost var before := api.log;
    err := api.DeletePod(pod.name);
    ghost var after := api.log;
    assert after == before + [DeletePod(pod.name)];
    assert after[..|after| - 1] == before;
    if err == Some(NotFound) {
      return None;
    }
  }

  method ReconcileOutdatedPod(api: Api, set_: StatefulSet, pods: seq<Pod>)
    returns (err: Option<ApiError>, ghost victim: Option<Pod>)
    requires AllRepairs(set_, pods, api.log)
    requires Observed(set_, pods, EndOrdinalOf(set_) + 1) && NoneCondemned(set_, pods)
    modifies api
    ensures AllRepairs(set_, pods, api.log) || DeleteSafe(set_, pods, api.log)
    ensures victim.None? ==> forall n | 0 <= n <= EndOrdinalOf(set_) :: !OutdatedAt(set_, pods, n)
    ensures victim.None? ==> err == None && api.Now() == old(api.Now())
    ensures victim.Some? ==> HighestOutdated(set_, pods, victim.value)
    ensures victim.Some? && err == None && victim.value.name in old(api.pods) ==>
              api.Now() == DeletedUnless(victim.value.terminating, old(api.Now()), victim.value.name, api.atOnce)
    ensures api.Faultless() ==> err == None
  {
    var outdated := LargestOutdatedPod(set_, pods);
    victim := outdated;
    if outdated.None? {
      return None, victim;
    }
    if outdated.value.terminating {
      return None, victim;
    }
    err := DeleteListed(api, set_, outdated.value, pods);
  }

  // ---------------------------------------------------------------- the whole reconciliation

  lemma FreshCondemned(set_: StatefulSet, w: World, pods: seq<Pod>, view: set<string>)
    requires FreshView(set_, w, pods, view)
    ensures forall p :: HighestCondemned(set_, pods, p) ==> TopCondemned(set_, w, p.name)
    ensures NoneCondemned(set_, pods) ==> forall k :: k in w.pods ==> !Condemned(set_, k)
  {
    hide Condemned, Find;
    assert forall k :: k in w.pods ==> w.pods[k] in pods;
  }

  lemma FreshOutdatedAt(set_: StatefulSet, w: World, pods: seq<Pod>, view: set<string>, n: nat)
    requires FreshView(set_, w, pods, view) && n <= MAX_ORDINAL
    ensures OutdatedAt(set_, pods, n) <==> Outdated(set_, w, n)
    ensures Find(set_, pods, n).Some? ==> Find(set_, pods, n).value.name == PodName(set_.name, n)
  {
    hide PodSpecMatches, PodName;
    FreshFind(set_, w, pods, view, n);
  }

  lemma FreshOutdated(set_: StatefulSet, w: World, pods: seq<Pod>, view: set<string>, p: Pod)
    requires InRange(set_) && FreshView(set_, w, pods, view)
    requires HighestOutdated(set_, pods, p)
    ensures exists n: nat :: TopOutdated(set_, w, n) && p.name == PodName(set_.name, n)
  {
    hide FreshView, OutdatedAt, Outdated, Find, PodName;
    forall n: nat | n <= EndOrdinalOf(set_)
      ensures OutdatedAt(set_, pods, n) <==> Outdated(set_, w, n)
      ensures Find(set_, pods, n).Some? ==> Find(set_, pods, n).value.name == PodName(set_.name, n)
    {
      FreshOutdatedAt(set_, w, pods, view, n);
    }
    var n :| 0 <= n <= EndOrdinalOf(set_) && OutdatedAt(set_, pods, n) && Find(set_, pods, n) == Some(p)
             && forall j | n < j <= EndOrdinalOf(set_) :: !OutdatedAt(set_, pods, j);
    assert TopOutdated(set_, w, n);
  }

  lemma NoneOutdated(set_: StatefulSet, w: World, pods: seq<Pod>, view: set<string>)
    requires InRange(set_) && FreshView(set_, w, pods, view)
    requires forall n | 0 <= n <= EndOrdinalOf(set_) :: !OutdatedAt(set_, pods, n)
    ensures forall n: nat :: !TopOutdated(set_, w, n)
  {
    hide FreshView, OutdatedAt, Outdated;
    forall n: nat | n <= EndOrdinalOf(set_) ensures !Outdated(set_, w, n) {
      FreshOutdatedAt(set_, w, pods, view, n);
    }
  }

  /** Repairs neither add nor remove Pods, nor start a deletion. */
  lemma PartialKeeps(set_: StatefulSet, w: World, n: nat, k: string)
    ensures k in Partial(set_, w, n).pods <==> k in w.pods
    ensures k in w.pods ==> Partial(set_, w, n).pods[k].terminating == w.pods[k].terminating
  {
  }

  lemma StoppedIsNext(set_: StatefulSet, w: World, n: nat, now: World, atOnce: Pod -> bool)
    requires Stopped(set_, w, n, now)
    ensures NextWorld(set_, w, now, atOnce)
  {
    hide StopsAt, StoppedAt;
    assert NextAt(set_, w, n, now, atOnce);
  }

  lemma TrimmedIsNext(set_: StatefulSet, w: World, now: World, atOnce: Pod -> bool)
    requires NoneBlocked(set_, w, Desired(set_)) && Trimmed(set_, w, Partial(set_, w, Desired(set_)), now, atOnce)
    ensures NextWorld(set_, w, now, atOnce)
  {
    hide Trimmed, NoneBlocked, Partial;
    assert StopsAt(set_, w, Desired(set_)) && NextAt(set_, w, Desired(set_), now, atOnce);
  }

  lemma ListedVictim(set_: StatefulSet, w: World, pods: seq<Pod>, view: set<string>, p: Pod)
    requires InRange(set_) && FreshView(set_, w, pods, view)
    requires HighestCondemned(set_, pods, p) || (NoneCondemned(set_, pods) && HighestOutdated(set_, pods, p))
    ensures p.name in w.pods && w.pods[p.name] == p && Victim(set_, w, p.name)
  {
    hide Condemned, Find, TopOutdated, PodName;
    FreshCondemned(set_, w, pods, view);
    if NoneCondemned(set_, pods) && HighestOutdated(set_, pods, p) {
      FreshOutdated(set_, w, pods, view, p);
      var n :| 0 <= n <= EndOrdinalOf(set_) && Find(set_, pods, n) == Some(p);
    }
    assert p in pods;
  }

  lemma VictimIsNext(set_: StatefulSet, w: World, pods: seq<Pod>, view: set<string>, p: Pod, now: World,
                     atOnce: Pod -> bool)
    requires InRange(set_) && FreshView(set_, w, pods, view)
    requires HighestCondemned(set_, pods, p) || (NoneCondemned(set_, pods) && HighestOutdated(set_, pods, p))
    ensures p.name in Partial(set_, w, Desired(set_)).pods
    ensures var u := Partial(set_, w, Desired(set_));
            (NoneBlocked(set_, w, Desired(set_)) && now == DeletedUnless(p.terminating, u, p.name, atOnce))
              ==> NextWorld(set_, w, now, atOnce)
  {
    hide FreshView, HighestCondemned, HighestOutdated, NoneCondemned, Partial, Victim, NoneBlocked;
    ListedVictim(set_, w, pods, view, p);
    PartialKeeps(set_, w, Desired(set_), p.name);
    var u := Partial(set_, w, Desired(set_));
    if NoneBlocked(set_, w, Desired(set_)) && now == DeletedUnless(p.terminating, u, p.name, atOnce) {
      assert Trimmed(set_, w, u, now, atOnce);
      TrimmedIsNext(set_, w, now, atOnce);
    }
  }

  lemma NoVictimIsNext(set_: StatefulSet, w: World, pods: seq<Pod>, view: set<string>, atOnce: Pod -> bool)
    requires InRange(set_) && FreshView(set_, w, pods, view)
    requires NoneCondemned(set_, pods) && forall n | 0 <= n <= EndOrdinalOf(set_) :: !OutdatedAt(set_, pods, n)
    requires NoneBlocked(set_, w, Desired(set_))
    ensures NextWorld(set_, w, Partial(set_, w, Desired(set_)), atOnce)
  {
    hide FreshView, NoneCondemned, OutdatedAt, Partial, TopOutdated, NoneBlocked, Condemned;
    FreshCondemned(set_, w, pods, view);
    NoneOutdated(set_, w, pods, view);
    assert forall k :: !Victim(set_, w, k);
    TrimmedIsNext(set_, w, Partial(set_, w, Desired(set_)), atOnce);
  }

  /** One reconciliation. Under any faults it issues at most one Pod create or delete, as its last request and only
      when allowed. With fresh views a nil error means that the world took exactly one step; without faults it is
      nil. */
  method ReconcileReplicas(api: Api, view: set<string>, set_: StatefulSet, pods: seq<Pod>)
    returns (err: Option<ApiError>)
    requires InRange(set_)
    modifies api
    ensures OrderSafe(set_, pods, view + api.claims, api.log)
    ensures FreshView(set_, old(api.Now()), pods, view) ==>
              && (err == None ==> NextWorld(set_, old(api.Now()), api.Now(), api.atOnce))
              && (api.Faultless() ==> err == None)
  {
    hide Find, FreshView, Partial, CreateSafe, DeleteSafe, Stopped, HighestCondemned, HighestOutdated, Observed;
    hide NextWorld, NoneCondemned, OutdatedAt, AllRepairs, NoneBlocked;
    ghost var w := api.Now();
    ghost var fair := FreshView(set_, w, pods, view);
    api.log := [];
    var more;
    ghost var stop, victim;
    more, err, stop := ReconcileDesiredPods(api, view, set_, pods);
    if err.Some? || !more {
      if fair && err == None {
        StoppedIsNext(set_, w, stop, api.Now(), api.atOnce);
      }
      return err;
    }
    more, err, victim := ReconcileCondemnedPod(api, set_, pods);
    RepairsAreSafe(set_, pods, view + api.claims, api.log);
    if err.Some? || !more {
      if fair && err == None {
        VictimIsNext(set_, w, pods, view, victim.value, api.Now(), api.atOnce);
      }
      return err;
    }
    err, victim := ReconcileOutdatedPod(api, set_, pods);
    RepairsAreSafe(set_, pods, view + api.claims, api.log);
    if fair && victim.Some? && err == None {
      VictimIsNext(set_, w, pods, view, victim.value, api.Now(), api.atOnce);
    } else if fair && victim.None? {
      NoVictimIsNext(set_, w, pods, view, api.atOnce);
    }
  }
}
