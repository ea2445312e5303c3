/** Stored objects, requests and the upstream functions the store calls. */
module ApiObjects {

  import opened Wrappers
  import opened Decimal

  datatype Kind =
    | Pod | PersistentVolumeClaim | ServiceAccount | ReplicaSet
    | StatefulSet | Deployment | ClusterRole | ControllerRevision

  datatype Key = Key(kind: Kind, name: string, namespace: string)

  /** Object metadata the store looks at; everything else is the opaque `body`.
      Times are nanoseconds, grace periods seconds. */
  datatype Object = Object(
    name: string,
    generateName: string,
    namespace: string,
    uid: string,
    rv: string,
    generation: int,
    finalizers: seq<string>,
    deletionTimestamp: Option<int>,
    deletionGrace: Option<int>,
    body: string)

  datatype Error =
    | NotFound | Conflict | AlreadyExists | Invalid | BadRequest
    | Internal | Unsupported | UnsupportedMediaType | Rejected(reason: string)

  datatype Propagation = OrphanPolicy | BackgroundPolicy | ForegroundPolicy | OtherPolicy(name: string)

  datatype PatchType = JsonPatch | MergePatch | StrategicMergePatch | OtherPatch(name: string)

  datatype DeleteOptions = DeleteOptions(
    grace: Option<int>,
    uid: Option<string>,
    rv: Option<string>,
    orphanDependents: Option<bool>,
    propagation: Option<Propagation>)

  /** Upstream Kubernetes functions; `HooksOk` is what the store relies on. */
  datatype Hooks = Hooks(
    admitCreate: (Kind, Object) -> Result<Object, Error>,
    admitUpdate: (Kind, Object, Object) -> Result<Object, Error>,
    admitStatus: (Kind, Object, Object) -> Result<Object, Error>,
    podGrace: (Object, Option<int>) -> int,
    validOptions: DeleteOptions -> bool,
    applyPatch: (Object, PatchType, string) -> Result<Object, Error>)

  ghost predicate AdmitsUpdate(admitted: Result<Object, Error>, submitted: Object, existing: Object) {
    match admitted
    case Ok(o) =>
      && o.name == submitted.name
      && o.namespace == submitted.namespace
      && o.uid == existing.uid
      && o.deletionTimestamp == existing.deletionTimestamp
      && o.deletionGrace == existing.deletionGrace
    case Err(e) => e != Conflict
  }

  ghost predicate AdmitsCreate(admitted: Result<Object, Error>, submitted: Object) {
    admitted.Ok? ==>
      var o := admitted.value;
      && o.name == submitted.name
      && o.namespace == submitted.namespace
      && o.uid == submitted.uid
      && o.deletionTimestamp == submitted.deletionTimestamp
      && o.deletionGrace == submitted.deletionGrace
  }

  ghost predicate HooksOk(h: Hooks) {
    && (forall k, o :: AdmitsCreate(h.admitCreate(k, o), o))
    && (forall k, o, e :: AdmitsUpdate(h.admitUpdate(k, o, e), o, e))
    && (forall k, o, e :: AdmitsUpdate(h.admitStatus(k, o, e), o, e))
    && (forall o, g :: h.podGrace(o, g) >= 0)
  }

  /** The kinds whose status is a storage endpoint of its own. */
  predicate HasStatus(kind: Kind) {
    kind in {Pod, PersistentVolumeClaim, ReplicaSet, StatefulSet, Deployment}
  }

  function KeyOf(kind: Kind, o: Object): Key {
    Key(kind, o.name, o.namespace)
  }

  /** `storageObjectDeepEqual`: equality up to the resource version. */
  predicate SameContent(a: Object, b: Object) {
    a.(rv := "") == b.(rv := "")
  }
}
