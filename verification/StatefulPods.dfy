/** StatefulSets and their Pods: identity, storage and the Pod a set builds for an ordinal. */
module StatefulPods {

  import opened Wrappers
  import opened Decimal
  import opened PodNames

  datatype Source = Claim(claimName: string) | OtherSource(text: string)

  datatype Volume = Volume(name: string, source: Source)

  /** `rest` stands for every field a StatefulSet does not own. */
  datatype PodSpec = PodSpec(hostname: string, subdomain: string, volumes: seq<Volume>, rest: string)

  /** `labels` is `None` for a nil map. */
  datatype Pod = Pod(
    name: string,
    namespace: string,
    labels: Option<map<string, string>>,
    terminating: bool,
    spec: PodSpec)

  datatype ClaimTemplate = ClaimTemplate(name: string, body: string)

  datatype StatefulSet = StatefulSet(
    name: string,
    namespace: string,
    replicas: Option<int>,
    serviceName: string,
    templateLabels: Option<map<string, string>>,
    templateSpec: PodSpec,
    claimTemplates: seq<ClaimTemplate>)

  const NAME_LABEL := "statefulset.kubernetes.io/pod-name"
  const INDEX_LABEL := "apps.kubernetes.io/pod-index"

  function ReplicasOf(set_: StatefulSet): int {
    set_.replicas.GetOr(1)
  }

  function EndOrdinalOf(set_: StatefulSet): int {
    ReplicasOf(set_) - 1
  }

  /** The replica count is an int32. */
  predicate InRange(set_: StatefulSet) {
    -0x8000_0000 <= ReplicasOf(set_) <= MAX_ORDINAL
  }

  predicate PodInOrdinalRange(set_: StatefulSet, name: string) {
    0 <= OrdinalOf(name) <= EndOrdinalOf(set_)
  }

  // ---------------------------------------------------------------- identity

  /** Reading a Go map: missing keys and nil maps give the empty string. */
  function Label(pod: Pod, key: string): string {
    var labels := pod.labels.GetOr(map[]);
    if key in labels then labels[key] else ""
  }

  function Identified(set_: StatefulSet, pod: Pod): Pod {
    var ordinal := OrdinalOf(pod.name);
    var name := PodName(set_.name, ordinal);
    pod.(name := name, namespace := set_.namespace,
         labels := Some(pod.labels.GetOr(map[])[NAME_LABEL := name][INDEX_LABEL := Itoa(ordinal)]))
  }

  predicate IdentityMatches(set_: StatefulSet, pod: Pod) {
    var (parent, ordinal) := ParentNameAndOrdinal(pod.name);
    && ordinal >= 0
    && parent == set_.name
    && pod.name == PodName(set_.name, ordinal)
    && pod.namespace == set_.namespace
    && Label(pod, NAME_LABEL) == pod.name
    && Label(pod, INDEX_LABEL) == Itoa(ordinal)
  }

  /** A pointer to a Pod the controller is building or repairing. */
  class PodRef {
    var pod: Pod

    constructor (pod: Pod)
      ensures this.pod == pod
    {
      this.pod := pod;
    }
  }

  method UpdateIdentity(set_: StatefulSet, p: PodRef)
    modifies p
    ensures p.pod == Identified(set_, old(p.pod))
  {
    var ordinal := OrdinalOf(p.pod.name);
    p.pod := p.pod.(name := PodName(set_.name, ordinal));
    p.pod := p.pod.(namespace := set_.namespace);
    if p.pod.labels.None? {
      p.pod := p.pod.(labels := Some(map[]));
    }
    p.pod := p.pod.(labels := Some(p.pod.labels.value[NAME_LABEL := p.pod.name]));
    p.pod := p.pod.(labels := Some(p.pod.labels.value[INDEX_LABEL := Itoa(ordinal)]));
  }

  method InitIdentity(set_: StatefulSet, p: PodRef)
    modifies p
    ensures var o := Identified(set_, old(p.pod));
            p.pod == o.(spec := o.spec.(hostname := o.name, subdomain := set_.serviceName))
  {
    UpdateIdentity(set_, p);
    p.pod := p.pod.(spec := p.pod.spec.(hostname := p.pod.name));
    p.pod := p.pod.(spec := p.pod.spec.(subdomain := set_.serviceName));
  }

  /** On a member name the repair keeps the name, makes the identity match, touches neither spec nor deletion, and
      repairing again changes nothing. */
  lemma IdentifiedMember(set_: StatefulSet, pod: Pod)
    requires IsMemberOf(set_.name, pod.name)
    ensures var o := Identified(set_, pod);
            && o.name == pod.name && o.spec == pod.spec && o.terminating == pod.terminating
            && IdentityMatches(set_, o)
            && Identified(set_, o) == o
  {
    var o := Identified(set_, pod);
    assert NAME_LABEL != INDEX_LABEL by {
      assert NAME_LABEL[0] != INDEX_LABEL[0];
    }
    assert o.labels.value[NAME_LABEL := o.name][INDEX_LABEL := Itoa(OrdinalOf(o.name))] == o.labels.value;
  }

  // ---------------------------------------------------------------- storage

  /** The names under which a set keeps claims; of templates with one name, any stands for it. */
  function TemplateNames(set_: StatefulSet): set<string> {
    set t | t in set_.claimTemplates :: t.name
  }

  function ClaimVolume(set_: StatefulSet, name: string, ordinal: int): Volume {
    Volume(name, Claim(ClaimName(set_.name, name, ordinal)))
  }

  method VolumeClaimTemplatesByName(set_: StatefulSet) returns (m: map<string, ClaimTemplate>)
    ensures m.Keys == TemplateNames(set_)
    ensures forall n :: n in m ==> m[n].name == n
  {
    m := map[];
    for i := 0 to |set_.claimTemplates|
      invariant m.Keys == set t | t in set_.claimTemplates[..i] :: t.name
      invariant forall n :: n in m ==> m[n].name == n
    {
      ghost var before := m.Keys;
      m := m[set_.claimTemplates[i].name := set_.claimTemplates[i]];
      assert set_.claimTemplates[..i + 1] == set_.claimTemplates[..i] + [set_.claimTemplates[i]];
      assert m.Keys == before + {set_.claimTemplates[i].name};
    }
    assert set_.claimTemplates[..|set_.claimTemplates|] == set_.claimTemplates;
  }

  function Unshadowed(names: set<string>, volumes: seq<Volume>): (r: seq<Volume>)
    ensures forall v :: v in r <==> v in volumes && v.name !in names
  {
    if volumes == [] then []
    else
      Unshadowed(names, volumes[..|volumes| - 1]) +
      (var v := volumes[|volumes| - 1]; if v.name in names then [] else [v])
  }

  /** The volumes a set gives a new Pod: one claim per template name, in whatever order the map is walked, then the
      template's own volumes that no claim shadows, in order. */
  ghost predicate StorageBuilt(set_: StatefulSet, ordinal: int, before: seq<Volume>, after: seq<Volume>) {
    exists order: seq<string> ::
      && Enumerates(order, TemplateNames(set_))
      && after == ClaimVolumes(set_, order, ordinal) + Unshadowed(TemplateNames(set_), before)
  }

  /** `order` lists every name once. */
  ghost predicate Enumerates(order: seq<string>, names: set<string>) {
    && (forall n :: n in order <==> n in names)
    && (forall i, j | 0 <= i < j < |order| :: order[i] != order[j])
  }

  function ClaimVolumes(set_: StatefulSet, order: seq<string>, ordinal: int): (r: seq<Volume>)
    ensures |r| == |order|
    ensures forall i | 0 <= i < |r| :: r[i] == ClaimVolume(set_, order[i], ordinal)
  {
    seq(|order|, i requires 0 <= i < |order| => ClaimVolume(set_, order[i], ordinal))
  }

  lemma EnumerateOneMore(order: seq<string>, names: set<string>, name: string)
    requires Enumerates(order, names) && name !in names
    ensures Enumerates(order + [name], names + {name})
  {
    assert forall i | 0 <= i < |order| :: order[i] in order && order[i] != name;
  }

  /** One volume per template, in whatever order the map is walked. */
  method ClaimVolumesByName(set_: StatefulSet, claimTemplates: map<string, ClaimTemplate>, ordinal: int)
    returns (newVolumes: seq<Volume>, ghost order: seq<string>)
    requires forall n :: n in claimTemplates ==> claimTemplates[n].name == n
    ensures Enumerates(order, claimTemplates.Keys)
    ensures newVolumes == ClaimVolumes(set_, order, ordinal)
  {
    hide ClaimName;
    newVolumes, order := [], [];
    var todo := claimTemplates.Keys;
    while todo != {}
      invariant todo <= claimTemplates.Keys
      invariant Enumerates(order, claimTemplates.Keys - todo)
      invariant newVolumes == ClaimVolumes(set_, order, ordinal)
    {
      var name :| name in todo;
      EnumerateOneMore(order, claimTemplates.Keys - todo, name);
      assert claimTemplates.Keys - todo + {name} == claimTemplates.Keys - (todo - {name});
      newVolumes := newVolumes + [Volume(name, Claim(ClaimName(set_.name, claimTemplates[name].name, ordinal)))];
      order := order + [name];
      todo := todo - {name};
    }
    assert claimTemplates.Keys - {} == claimTemplates.Keys;
  }

  lemma UnshadowedStep(names: set<string>, volumes: seq<Volume>, i: nat)
    requires i < |volumes|
    ensures Unshadowed(names, volumes[..i + 1])
         == Unshadowed(names, volumes[..i]) + if volumes[i].name in names then [] else [volumes[i]]
  {
    assert volumes[..i + 1][..i] == volumes[..i];
  }

  lemma NothingUnshadowedYet(names: set<string>, volumes: seq<Volume>)
    ensures Unshadowed(names, volumes[..0]) == []
  {
  }

  method InitStorage(set_: StatefulSet, p: PodRef)
    modifies p
    ensures StorageBuilt(set_, OrdinalOf(old(p.pod.name)), old(p.pod.spec.volumes), p.pod.spec.volumes)
    ensures p.pod == old(p.pod).(spec := old(p.pod.spec).(volumes := p.pod.spec.volumes))
  {
    hide Enumerates, ClaimVolumes, TemplateNames, Unshadowed;
    var ordinal := OrdinalOf(p.pod.name);
    var currentVolumes := p.pod.spec.volumes;
    var claimTemplates := VolumeClaimTemplatesByName(set_);
    var newVolumes;
    ghost var order;
    newVolumes, order := ClaimVolumesByName(set_, claimTemplates, ordinal);
    NothingUnshadowedYet(TemplateNames(set_), currentVolumes);
    for i := 0 to |currentVolumes|
      invariant p.pod == old(p.pod)
      invariant newVolumes == ClaimVolumes(set_, order, ordinal) + Unshadowed(TemplateNames(set_), currentVolumes[..i])
    {
      UnshadowedStep(TemplateNames(set_), currentVolumes, i);
      if currentVolumes[i].name !in claimTemplates {
        newVolumes := newVolumes + [currentVolumes[i]];
      }
    }
    assert currentVolumes[..|currentVolumes|] == currentVolumes;
    p.pod := p.pod.(spec := p.pod.spec.(volumes := newVolumes));
  }

  /** The volume a map filled from the list holds under a name: the last one of that name. */
  function LastNamed(volumes: seq<Volume>, name: string): Option<Volume> {
    if volumes == [] then None
    else if volumes[|volumes| - 1].name == name then Some(volumes[|volumes| - 1])
    else LastNamed(volumes[..|volumes| - 1], name)
  }

  predicate StorageMatches(set_: StatefulSet, pod: Pod) {
    var ordinal := OrdinalOf(pod.name);
    && ordinal >= 0
    && forall n :: n in TemplateNames(set_) ==> LastNamed(pod.spec.volumes, n) == Some(ClaimVolume(set_, n, ordinal))
  }

  method CheckStorage(set_: StatefulSet, pod: Pod) returns (r: bool)
    ensures r <==> StorageMatches(set_, pod)
  {
    var ordinal := OrdinalOf(pod.name);
    if ordinal < 0 {
      return false;
    }
    var volumes: map<string, Volume> := map[];
    for i := 0 to |pod.spec.volumes|
      invariant forall n :: (if n in volumes then Some(volumes[n]) else None) == LastNamed(pod.spec.volumes[..i], n)
      invariant forall n :: n in volumes ==> volumes[n].name == n
    {
      assert pod.spec.volumes[..i + 1][..i] == pod.spec.volumes[..i];
      volumes := volumes[pod.spec.volumes[i].name := pod.spec.volumes[i]];
    }
    assert pod.spec.volumes[..|pod.spec.volumes|] == pod.spec.volumes;
    var claimTemplates := VolumeClaimTemplatesByName(set_);
    var todo := claimTemplates.Keys;
    while todo != {}
      invariant todo <= claimTemplates.Keys
      invariant forall n :: n in claimTemplates.Keys - todo ==>
                  LastNamed(pod.spec.volumes, n) == Some(ClaimVolume(set_, n, ordinal))
    {
      var name :| name in todo;
      if name !in volumes || !volumes[name].source.Claim?
         || volumes[name].source.claimName != ClaimName(set_.name, claimTemplates[name].name, ordinal) {
        assert LastNamed(pod.spec.volumes, name) != Some(ClaimVolume(set_, name, ordinal));
        return false;
      }
      assert volumes[name] == ClaimVolume(set_, name, ordinal);
      todo := todo - {name};
    }
    return true;
  }

  // ---------------------------------------------------------------- the whole Pod

  predicate PodSpecMatches(set_: StatefulSet, pod: Pod) {
    && pod.spec.hostname == pod.name
    && pod.spec.subdomain == set_.serviceName
    && StorageMatches(set_, pod)
    && pod.spec.rest == set_.templateSpec.rest
  }

  /** `GetPodFromTemplate`: a nameless copy of the template. */
  function FromTemplate(set_: StatefulSet): Pod {
    Pod("", set_.namespace, set_.templateLabels, false, set_.templateSpec)
  }

  lemma {:induction false} LastNamedInPrefix(a: seq<Volume>, b: seq<Volume>, name: string)
    requires forall v :: v in b ==> v.name != name
    ensures LastNamed(a + b, name) == LastNamed(a, name)
  {
    if b == [] {
      assert a + b == a;
    } else {
      assert (a + b)[..|a + b| - 1] == a + b[..|b| - 1];
      assert b[|b| - 1] in b;
      LastNamedInPrefix(a, b[..|b| - 1], name);
    }
  }

  lemma {:induction false} LastNamedClaim(set_: StatefulSet, order: seq<string>, ordinal: int, name: string)
    requires name in order
    ensures LastNamed(ClaimVolumes(set_, order, ordinal), name) == Some(ClaimVolume(set_, name, ordinal))
  {
    var init, last := order[..|order| - 1], order[|order| - 1];
    assert ClaimVolumes(set_, order, ordinal)[..|order| - 1] == ClaimVolumes(set_, init, ordinal);
    if last != name {
      assert order == init + [last];
      LastNamedClaim(set_, init, ordinal, name);
    }
  }

  /** Whatever the map order, the storage a set builds is the storage it looks for. */
  lemma BuiltStorageMatches(set_: StatefulSet, ordinal: int, before: seq<Volume>, after: seq<Volume>)
    requires StorageBuilt(set_, ordinal, before, after)
    ensures forall n :: n in TemplateNames(set_) ==> LastNamed(after, n) == Some(ClaimVolume(set_, n, ordinal))
    ensures forall v :: v in before && v.name !in TemplateNames(set_) ==> v in after
  {
    hide ClaimName;
    var order: seq<string> :|
      && Enumerates(order, TemplateNames(set_))
      && after == ClaimVolumes(set_, order, ordinal) + Unshadowed(TemplateNames(set_), before);
    forall n | n in TemplateNames(set_) ensures LastNamed(after, n) == Some(ClaimVolume(set_, n, ordinal)) {
      LastNamedInPrefix(ClaimVolumes(set_, order, ordinal), Unshadowed(TemplateNames(set_), before), n);
      LastNamedClaim(set_, order, ordinal, n);
    }
  }

  /** A Pod as the set wants it for an ordinal. */
  ghost predicate Wanted(set_: StatefulSet, n: nat, pod: Pod) {
    && pod.name == PodName(set_.name, n)
    && !pod.terminating
    && IdentityMatches(set_, pod)
    && PodSpecMatches(set_, pod)
  }

  lemma LabelKeysDiffer()
    ensures "statefulset.kubernetes.io/pod-name" != "apps.kubernetes.io/pod-index"
  {
    assert "statefulset.kubernetes.io/pod-name"[0] != "apps.kubernetes.io/pod-index"[0];
  }

  /** `after` is `before` but for the two identity labels. */
  ghost predicate SameOtherLabels(before: map<string, string>, after: map<string, string>) {
    forall key :: key != "statefulset.kubernetes.io/pod-name" && key != "apps.kubernetes.io/pod-index" ==>
      (key in after <==> key in before) && (key in before ==> after[key] == before[key])
  }

  lemma TwoLabelsSet(before: map<string, string>, name: string, index: string)
    ensures var after := before["statefulset.kubernetes.io/pod-name" := name]["apps.kubernetes.io/pod-index" := index];
            && SameOtherLabels(before, after)
            && after["statefulset.kubernetes.io/pod-name"] == name && after["apps.kubernetes.io/pod-index"] == index
  {
    LabelKeysDiffer();
  }

  /** A new Pod as the set builds it: wanted, with the template's other labels and the volumes no claim shadows. */
  ghost predicate BuiltFor(set_: StatefulSet, n: nat, pod: Pod) {
    && Wanted(set_, n, pod)
    && pod.labels.Some? && SameOtherLabels(set_.templateLabels.GetOr(map[]), pod.labels.value)
    && forall v :: v in set_.templateSpec.volumes && v.name !in TemplateNames(set_) ==> v in pod.spec.volumes
  }

  lemma WantedName(set_: StatefulSet, n: nat, pod: Pod)
    requires Wanted(set_, n, pod) && n <= MAX_ORDINAL
    ensures pod.name == PodName(set_.name, n) && !pod.terminating && OrdinalOf(pod.name) == n
  {
    ParseOfPodName(set_.name, n);
  }

  /** What the three steps of the construction leave is a Pod as wanted. */
  lemma BuiltIsWanted(set_: StatefulSet, n: nat, named: Pod, pod: Pod)
    requires n <= MAX_ORDINAL && named == FromTemplate(set_).(name := PodName(set_.name, n))
    requires StorageBuilt(set_, n, named.spec.volumes, pod.spec.volumes)
    requires var o := Identified(set_, named);
             pod == o.(spec := o.spec.(hostname := o.name, subdomain := set_.serviceName, volumes := pod.spec.volumes))
    ensures BuiltFor(set_, n, pod)
  {
    ParseOfPodName(set_.name, n);
    BuiltStorageMatches(set_, n, named.spec.volumes, pod.spec.volumes);
    TwoLabelsSet(set_.templateLabels.GetOr(map[]), PodName(set_.name, n), Itoa(n));
    hide ParentNameAndOrdinal, PodName, StorageBuilt, LastNamed, SameOtherLabels;
    IdentifiedMember(set_, named);
    assert pod.name == PodName(set_.name, n) && OrdinalOf(pod.name) == n;
    SameIdentity(set_, Identified(set_, named), pod);
  }

  /** Identity is a matter of name, namespace and labels. */
  lemma SameIdentity(set_: StatefulSet, a: Pod, b: Pod)
    requires a.name == b.name && a.namespace == b.namespace && a.labels == b.labels
    ensures IdentityMatches(set_, a) <==> IdentityMatches(set_, b)
  {
    hide ParentNameAndOrdinal, PodName;
  }

  /** A freshly built Pod is stable: it passes every test that could have it repaired or replaced, and keeps the
      template's volumes that no claim shadows. */
  method NewStatefulSetPod(set_: StatefulSet, n: nat) returns (pod: Pod)
    requires n <= MAX_ORDINAL
    ensures BuiltFor(set_, n, pod)
  {
    hide PodSpecMatches, IdentityMatches, ParentNameAndOrdinal, PodName, StorageBuilt, Wanted, Identified,
         SameOtherLabels;
    var p := new PodRef(FromTemplate(set_));
    p.pod := p.pod.(name := PodName(set_.name, n));
    ghost var named := p.pod;
    ParseOfPodName(set_.name, n);
    IdentifiedMember(set_, named);
    InitIdentity(set_, p);
    InitStorage(set_, p);
    BuiltStorageMatches(set_, n, named.spec.volumes, p.pod.spec.volumes);
    pod := p.pod;
    BuiltIsWanted(set_, n, named, pod);
  }
}
