/** What callers of the store see: the result of each operation in terms of the request and the stored object alone. */
module ApiOutcomes {

  import opened Wrappers
  import opened Decimal
  import opened ApiObjects
  import opened Finalizers
  import opened ApiStore
  import opened ApiRuns

  predicate NamespaceFits(namespace: string, o: Object) {
    o.namespace == namespace || o.namespace == "" || namespace == ""
  }

  // ---------------------------------------------------------------- create

  /** A create refuses without touching the map, or stores what was admitted under the drawn UID and version. */
  lemma CreateOutcome(h: Hooks, s: Store, c: Call)
    requires c.Create?
    ensures var (s', r) := Step(h, s, c);
            var name := if c.obj.name != "" then c.obj.name else c.obj.generateName + c.draws.suffix;
            var submitted := c.obj.(name := name, namespace := c.namespace, uid := c.draws.uid,
                                    deletionTimestamp := None, deletionGrace := None);
            var k := Key(c.kind, name, c.namespace);
            if !NamespaceFits(c.namespace, c.obj) then s' == s && r == Err(BadRequest)
            else
              && s'.usedUID == s.usedUID + {c.draws.uid}
              && if c.obj.name == "" && c.obj.generateName == "" then s'.m == s.m && r.Err?
                 else match h.admitCreate(c.kind, submitted)
                   case Err(e) => s'.m == s.m && r == Err(e)
                   case Ok(a) =>
                     if k in s.m then s'.m == s.m && r == Err(AlreadyExists)
                     else s'.m == s.m[k := a.(rv := c.draws.rv)] && r == Ok(Some(a.(rv := c.draws.rv)))
  {
  }

  // ---------------------------------------------------------------- update, status update and patch

  /** The result of writing what admission returned over the object at `k`: the admission's error; or the object is
      gone, when it was terminating without grace and lost its last finalizer; or it now has the admitted content,
      under the drawn version exactly if that differs from the old content. */
  ghost predicate WritesAdmitted(s: Store, k: Key, admitted: Result<Object, Error>, d: Draws, s': Store, r: Reply)
    requires k in s.m
  {
    var e := s.m[k];
    match admitted
    case Err(error) => s' == s && r == Err(error)
    case Ok(a) =>
      if a.finalizers == [] && e.deletionTimestamp.Some? && e.deletionGrace in {None, Some(0)}
      then s' == s.(m := s.m - {k}) && r == Ok(Some(a))
      else
        && k in s'.m
        && s'.m[k].(rv := "") == a.(rv := "")
        && s'.m[k].rv == (if a.(rv := "") == e.(rv := "") then e.rv else d.rv)
        && r == Ok(Some(s'.m[k]))
        && s'.m == s.m[k := s'.m[k]]
        && s'.usedUID == s.usedUID
  }

  /** The result of an update request up to admission, its own checks in their order. */
  ghost predicate UpdateResult(s: Store, kind: Kind, namespace: string, obj: Object, uidPrecondition: bool, d: Draws,
                               admit: (Kind, Object, Object) -> Result<Object, Error>, s': Store, r: Reply)
  {
    var k := Key(kind, obj.name, namespace);
    if !NamespaceFits(namespace, obj) || obj.name == "" then s' == s && r == Err(BadRequest)
    else if k !in s.m then s' == s && r == Err(NotFound)
    else
      var e := s.m[k];
      if uidPrecondition && obj.uid != "" && obj.uid != e.uid then s' == s && r == Err(Conflict)
      else if obj.rv != "" && !ParsesAsUint64(obj.rv) then s' == s && r == Err(Internal)
      else if obj.rv != "" && obj.rv != e.rv then s' == s && r == Err(Conflict)
      else WritesAdmitted(s, k, admit(kind, obj.(namespace := namespace, rv := e.rv), e), d, s', r)
  }

  lemma UpdateStepOutcome(h: Hooks, s: Store, kind: Kind, namespace: string, obj: Object, uidPrecondition: bool,
                          status: bool, d: Draws)
    requires HooksOk(h)
    ensures var (s', r) := UpdateStep(h, s, kind, namespace, obj, uidPrecondition, status, d);
            UpdateResult(s, kind, namespace, obj, uidPrecondition, d,
                         if status then h.admitStatus else h.admitUpdate, s', r)
  {
    var k := Key(kind, obj.name, namespace);
    if NamespaceFits(namespace, obj) && k in s.m {
      var submitted := obj.(namespace := namespace, rv := s.m[k].rv);
      assert submitted == obj.(namespace := namespace).(rv := s.m[k].rv);
      assert obj.rv == s.m[k].rv ==> obj.(namespace := namespace) == submitted;
      assert AdmitsUpdate(h.admitUpdate(kind, submitted, s.m[k]), submitted, s.m[k]);
      assert AdmitsUpdate(h.admitStatus(kind, submitted, s.m[k]), submitted, s.m[k]);
    }
  }

  lemma UpdateOutcome(h: Hooks, s: Store, c: Call)
    requires HooksOk(h) && c.Update?
    ensures var (s', r) := Step(h, s, c);
            UpdateResult(s, c.kind, c.namespace, c.obj, true, c.draws, h.admitUpdate, s', r)
  {
    hide UpdateStep, UpdateResult;
    UpdateStepOutcome(h, s, c.kind, c.namespace, c.obj, true, false, c.draws);
  }

  lemma UpdateStatusOutcome(h: Hooks, s: Store, c: Call)
    requires HooksOk(h) && c.UpdateStatus?
    ensures var (s', r) := Step(h, s, c);
            UpdateResult(s, c.kind, c.namespace, c.obj, true, c.draws, h.admitStatus, s', r)
  {
    hide UpdateStep, UpdateResult;
    UpdateStepOutcome(h, s, c.kind, c.namespace, c.obj, true, true, c.draws);
  }

  lemma KindsWithStatus(kind: Kind)
    ensures HasStatus(kind) <==> kind !in {ServiceAccount, ClusterRole, ControllerRevision}
  {
    match kind
    case Pod =>
    case PersistentVolumeClaim =>
    case ServiceAccount =>
    case ReplicaSet =>
    case StatefulSet =>
    case Deployment =>
    case ClusterRole =>
    case ControllerRevision =>
  }

  /** A patch that reaches an object is an update or status update of the patched object, whatever UID that carries. */
  lemma PatchOutcome(h: Hooks, s: Store, c: Call)
    requires HooksOk(h) && c.Patch?
    ensures var (s', r) := Step(h, s, c);
            var k := Key(c.kind, c.name, c.namespace);
            if c.patchType.OtherPatch? then s' == s && r == Err(UnsupportedMediaType)
            else if (c.subresources != [] && c.subresources != ["status"]) || k !in s.m
                    || (c.subresources == ["status"] && c.kind in {ServiceAccount, ClusterRole, ControllerRevision})
            then s' == s && r == Err(NotFound)
            else match h.applyPatch(s.m[k], c.patchType, c.data)
              case Err(e) => s' == s && r == Err(e)
              case Ok(p) =>
                if p.name != c.name then s' == s && r == Err(BadRequest)
                else if c.subresources == []
                then UpdateResult(s, c.kind, c.namespace, p, false, c.draws, h.admitUpdate, s', r)
                else UpdateResult(s, c.kind, c.namespace, p, false, c.draws, h.admitStatus, s', r)
  {
    hide UpdateStep, UpdateResult;
    var k := Key(c.kind, c.name, c.namespace);
    KindsWithStatus(c.kind);
    if k in s.m {
      match h.applyPatch(s.m[k], c.patchType, c.data)
      case Err(_) =>
      case Ok(p) => UpdateStepOutcome(h, s, c.kind, c.namespace, p, false, c.subresources == ["status"], c.draws);
    }
  }

  // ---------------------------------------------------------------- delete

  ghost predicate Untouched(s: Store, s': Store, r: Reply, reply: Reply) {
    s' == s && r == reply
  }

  ghost predicate Gone(s: Store, k: Key, s': Store, r: Reply) {
    s' == s.(m := s.m - {k}) && r == Ok(None)
  }

  ghost predicate Becomes(s: Store, k: Key, o: Object, d: Draws, s': Store, r: Reply) {
    s' == s.(m := s.m[k := o.(rv := d.rv)], usedRV := s.usedRV + {d.rv}) && r == Ok(None)
  }

  predicate Preconditions(o: Object, options: DeleteOptions) {
    && (options.uid.None? || options.uid.value == o.uid)
    && (options.rv.None? || options.rv.value == o.rv)
  }

  /** Negative requested periods count as one second. */
  function Asked(options: DeleteOptions): Option<int> {
    if options.grace.Some? && options.grace.value < 0 then Some(1) else options.grace
  }

  const SECOND := 1_000_000_000

  predicate Reasonable(seconds: int) {
    0 <= seconds <= 0xFFFF_FFFF
  }

  lemma SecondsAre(seconds: int)
    requires -0xFFFF_FFFF <= seconds <= 0xFFFF_FFFF
    ensures Seconds(seconds) == seconds * SECOND && Wrap64(SECOND * seconds) == seconds * SECOND
  {
  }

  /** A delete that is refused leaves the store alone. */
  lemma DeleteRefused(h: Hooks, s: Store, c: Call)
    requires c.Delete?
    ensures var (s', r) := Step(h, s, c);
            if c.key !in s.m then Untouched(s, s', r, Err(NotFound))
            else if !h.validOptions(c.options) then Untouched(s, s', r, Err(Invalid))
            else if !Preconditions(s.m[c.key], c.options) then Untouched(s, s', r, Err(Conflict))
            else if s.m[c.key].deletionTimestamp.None? && c.key.kind in {ServiceAccount, ClusterRole}
            then Untouched(s, s', r, Err(Unsupported))
            else r == Ok(None)
  {
    hide NewFinalizers, Wanted;
  }

  /** A delete that gets through the checks. */
  ghost predicate Accepted(h: Hooks, s: Store, c: Call)
    requires c.Delete?
  {
    c.key in s.m && h.validOptions(c.options) && Preconditions(s.m[c.key], c.options)
  }

  /** The finalizers the delete leaves. */
  function Left(s: Store, c: Call): seq<string>
    requires c.Delete? && c.key in s.m
  {
    NewFinalizers(s.m[c.key].finalizers, Wanted(s.m[c.key].finalizers, c.options))
  }

  /** How an object looks from the moment its deletion starts. */
  function Started(o: Object, finalizers: seq<string>, grace: int, timestamp: int): Object {
    o.(finalizers := finalizers, deletionGrace := Some(grace), deletionTimestamp := Some(timestamp),
       generation := o.generation + if o.generation > 0 then 1 else 0)
  }

  /** The first delete of a Pod gives it the grace its strategy answers, and only removes it at once when that is none
      and no finalizer is left. */
  lemma FirstDeleteOfPod(h: Hooks, s: Store, c: Call)
    requires c.Delete? && Accepted(h, s, c) && c.key.kind == Pod
    requires s.m[c.key].deletionTimestamp.None? && s.m[c.key].deletionGrace.None?
    requires Reasonable(h.podGrace(s.m[c.key], Asked(c.options)))
    ensures var (s', r) := Step(h, s, c);
            var o, g := s.m[c.key], h.podGrace(s.m[c.key], Asked(c.options));
            if Left(s, c) == [] && g == 0 then Gone(s, c.key, s', r)
            else Becomes(s, c.key, Started(o, Left(s, c), g, c.now + g * SECOND), c.draws, s', r)
  {
    hide NewFinalizers, Wanted;
    var o := s.m[c.key];
    SecondsAre(h.podGrace(o, Asked(c.options)));
    assert o.(deletionGrace := None) == o;
  }

  /** The first delete of any other deletable kind removes it at once, unless a finalizer is left. */
  lemma FirstDeleteOfOthers(h: Hooks, s: Store, c: Call)
    requires c.Delete? && Accepted(h, s, c) && s.m[c.key].deletionTimestamp.None?
    requires c.key.kind in {PersistentVolumeClaim, ReplicaSet, StatefulSet, Deployment, ControllerRevision}
    ensures var (s', r) := Step(h, s, c);
            if Left(s, c) == [] then Gone(s, c.key, s', r)
            else Becomes(s, c.key, Started(s.m[c.key], Left(s, c), 0, c.now), c.draws, s', r)
  {
    hide NewFinalizers, Wanted;
  }

  /** Deleting again while grace is left can only shorten it: the deadline moves back by the difference, but not before
      now, and a period of zero removes the object unless a finalizer is left. */
  lemma RepeatedDelete(h: Hooks, s: Store, c: Call)
    requires c.Delete? && Accepted(h, s, c) && s.m[c.key].deletionTimestamp.Some?
    requires s.m[c.key].deletionGrace.Some? && s.m[c.key].deletionGrace.value > 0
    requires Reasonable(s.m[c.key].deletionGrace.value)
    ensures var (s', r) := Step(h, s, c);
            var o, left, asked := s.m[c.key], Left(s, c), Asked(c.options);
            var grace, deadline := o.deletionGrace.value, o.deletionTimestamp.value;
            if asked.None? || asked.value >= grace then Untouched(s, s', r, Ok(None))
            else
              var moved := deadline - (grace - asked.value) * SECOND;
              if left == [] && asked.value == 0 then Gone(s, c.key, s', r)
              else
                Becomes(s, c.key, o.(finalizers := left, deletionGrace := asked,
                                     deletionTimestamp := Some(if moved < c.now then c.now else moved)), c.draws, s', r)
  {
    hide NewFinalizers, Wanted;
    var o := s.m[c.key];
    SecondsAre(-o.deletionGrace.value);
    if Asked(c.options).Some? && Asked(c.options).value < o.deletionGrace.value {
      SecondsAre(Asked(c.options).value);
    }
  }

  /** With no grace left a delete can only change the finalizers, and removes the object when none is left. */
  lemma DeleteWithoutGrace(h: Hooks, s: Store, c: Call)
    requires c.Delete? && Accepted(h, s, c)
    requires s.m[c.key].deletionTimestamp.Some? && s.m[c.key].deletionGrace == Some(0)
    ensures var (s', r) := Step(h, s, c);
            var o, left := s.m[c.key], Left(s, c);
            if left == [] then Gone(s, c.key, s', r)
            else if left == o.finalizers then Untouched(s, s', r, Ok(None))
            else Becomes(s, c.key, o.(finalizers := left), c.draws, s', r)
  {
    hide NewFinalizers, Wanted;
  }
}
