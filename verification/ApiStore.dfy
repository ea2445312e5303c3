/** The API object store: every locked operation as a step on (objects, used ids). */
module ApiStore {

  import opened Wrappers
  import opened Decimal
  import opened ApiObjects
  import opened Finalizers

  datatype Store = Store(m: map<Key, Object>, usedUID: set<string>, usedRV: set<string>)

  const EMPTY := Store(map[], {}, {})

  /** What the random generators return for one call. */
  datatype Draws = Draws(uid: string, suffix: string, rv: string)

  type Reply = Result<Option<Object>, Error>

  datatype Call =
    | Create(kind: Kind, namespace: string, obj: Object, draws: Draws)
    | Update(kind: Kind, namespace: string, obj: Object, draws: Draws)
    | UpdateStatus(kind: Kind, namespace: string, obj: Object, draws: Draws)
    | Patch(kind: Kind, namespace: string, name: string, patchType: PatchType,
            data: string, subresources: seq<string>, draws: Draws)
    | Delete(key: Key, options: DeleteOptions, now: int, draws: Draws)

  /** The generators retry until the draw is unused, and print versions as decimal int63 numbers. */
  predicate FreshDraws(s: Store, d: Draws) {
    && d.uid != "" && d.uid !in s.usedUID
    && d.rv !in s.usedRV
    && Canonical(d.rv) && Number(d.rv) < 0x8000_0000_0000_0000
  }

  predicate FreshName(s: Store, kind: Kind, namespace: string, obj: Object, d: Draws) {
    obj.name == "" ==> Key(kind, obj.generateName + d.suffix, namespace) !in s.m
  }

  predicate Fresh(s: Store, c: Call) {
    && FreshDraws(s, c.draws)
    && (c.Create? ==> FreshName(s, c.kind, c.namespace, c.obj, c.draws))
  }

  // ---------------------------------------------------------------- helpers shared with the class

  /** `EnsureObjectNamespaceMatchesRequestNamespace`. */
  function InNamespace(namespace: string, o: Object): Result<Object, Error> {
    if o.namespace == namespace || o.namespace == "" || namespace == ""
    then Ok(o.(namespace := namespace))
    else Err(BadRequest)
  }

  /** `WipeObjectMetaSystemFields`. */
  function Wiped(o: Object): Object {
    o.(uid := "", deletionTimestamp := None, deletionGrace := None)
  }

  /** `ShouldDeleteDuringUpdate`. */
  predicate DeleteDuringUpdate(admitted: Object, existing: Object) {
    && admitted.finalizers == []
    && existing.deletionTimestamp.Some?
    && (existing.deletionGrace.None? || existing.deletionGrace == Some(0))
  }

  function Wrap64(x: int): int {
    (x + 0x8000_0000_0000_0000) % 0x1_0000_0000_0000_0000 - 0x8000_0000_0000_0000
  }

  /** `time.Second * time.Duration(seconds)`, an int64 product. */
  function Seconds(seconds: int): int {
    Wrap64(seconds * 1_000_000_000)
  }

  predicate PreconditionsHold(o: Object, options: DeleteOptions) {
    && (options.uid.Some? ==> options.uid.value == o.uid)
    && (options.rv.Some? ==> options.rv.value == o.rv)
  }

  // ---------------------------------------------------------------- create

  function CreateStep(h: Hooks, s: Store, kind: Kind, namespace: string, obj: Object, d: Draws): (Store, Reply) {
    match InNamespace(namespace, Wiped(obj))
    case Err(e) => (s, Err(e))
    case Ok(placed) =>
      var s1 := s.(usedUID := s.usedUID + {d.uid});
      if placed.name == "" && placed.generateName == "" then (s1, Err(Rejected("name or generateName")))
      else
        var name := if placed.name == "" then placed.generateName + d.suffix else placed.name;
        match h.admitCreate(kind, placed.(uid := d.uid, name := name))
        case Err(e) => (s1, Err(e))
        case Ok(admitted) =>
          var key := Key(kind, name, namespace);
          if key in s.m then (s1, Err(AlreadyExists))
          else
            var stored := admitted.(rv := d.rv);
            (Store(s.m[key := stored], s1.usedUID, s.usedRV + {d.rv}), Ok(Some(stored)))
  }

  // ---------------------------------------------------------------- update

  /** The existing object an update addresses, and the submitted one carrying the version to be written. */
  function UpdateTarget(s: Store, kind: Kind, namespace: string, obj: Object, uidPrecondition: bool)
    : Result<(Object, Object), Error>
  {
    match InNamespace(namespace, obj)
    case Err(e) => Err(e)
    case Ok(placed) =>
      if placed.name == "" then Err(BadRequest)
      else if KeyOf(kind, placed) !in s.m then Err(NotFound)
      else
        var existing := s.m[KeyOf(kind, placed)];
        if uidPrecondition && placed.uid != "" && placed.uid != existing.uid then Err(Conflict)
        else if placed.rv == "" then Ok((existing, placed.(rv := existing.rv)))
        else if !ParsesAsUint64(placed.rv) then Err(Internal)
        else if placed.rv != existing.rv then Err(Conflict)
        else Ok((existing, placed))
  }

  function UpdateStep(h: Hooks, s: Store, kind: Kind, namespace: string, obj: Object, uidPrecondition: bool,
                      status: bool, d: Draws): (Store, Reply)
  {
    match UpdateTarget(s, kind, namespace, obj, uidPrecondition)
    case Err(e) => (s, Err(e))
    case Ok((existing, submitted)) =>
      match if status then h.admitStatus(kind, submitted, existing) else h.admitUpdate(kind, submitted, existing)
      case Err(e) => (s, Err(e))
      case Ok(admitted) =>
        var key := KeyOf(kind, submitted);
        if DeleteDuringUpdate(admitted, existing) then (s.(m := s.m - {key}), Ok(Some(admitted)))
        else if SameContent(admitted, existing) then (s, Ok(Some(existing)))
        else
          var stored := admitted.(rv := d.rv);
          (s.(m := s.m[key := stored], usedRV := s.usedRV + {d.rv}), Ok(Some(stored)))
  }

  function PatchStep(h: Hooks, s: Store, c: Call): (Store, Reply)
    requires c.Patch?
  {
    var status := c.subresources == ["status"];
    var key := Key(c.kind, c.name, c.namespace);
    if c.patchType.OtherPatch? then (s, Err(UnsupportedMediaType))
    else if c.subresources != [] && !status then (s, Err(NotFound))
    else if key !in s.m then (s, Err(NotFound))
    else if status && !HasStatus(c.kind) then (s, Err(NotFound))
    else match h.applyPatch(s.m[key], c.patchType, c.data)
      case Err(e) => (s, Err(e))
      case Ok(patched) =>
        if patched.name != c.name then (s, Err(BadRequest))
        else UpdateStep(h, s, c.kind, c.namespace, patched, false, status, c.draws)
  }

  // ---------------------------------------------------------------- delete

  /** What a delete decides about the object it addresses. */
  datatype Verdict =
    | Refuse(error: Error)
    | Keep
    | Remove
    | Rewrite(obj: Object)

  /** How a delete that goes through leaves the object: `grace` seconds, `timestamp` when none was set or it
      moved. */
  datatype Grace =
    | Failed(error: Error)
    | Pending
    | Granted(period: int, timestamp: int, first: bool)

  function Normalised(period: Option<int>): Option<int> {
    match period
    case Some(g) => if g < 0 then Some(1) else period
    case None => None
  }

  function GraceFor(h: Hooks, kind: Kind, o: Object, asked: Option<int>, now: int): Grace {
    match o.deletionTimestamp
    case Some(deadline) =>
      (match Normalised(o.deletionGrace)
      case None => Granted(0, deadline, false)
      case Some(left) =>
        if left == 0 then Granted(0, deadline, false)
        else if asked.None? || asked.value >= left then Pending
        else
          var moved := deadline + Wrap64(-1_000_000_000 * left) + Seconds(asked.value);
          Granted(asked.value, if moved < now then now else moved, false))
    case None =>
      match kind
      case Pod =>
        var period := h.podGrace(o.(deletionGrace := Normalised(o.deletionGrace)), asked);
        Granted(period, now + Seconds(period), true)
      case ServiceAccount => Failed(Unsupported)
      case ClusterRole => Failed(Unsupported)
      case _ => Granted(0, now, true)
  }

  /** The timestamp the object has, or `deletionTimestampForDelete`. */
  function DeletionTimestamp(o: Object, graceful: bool, period: int, now: int): int {
    if o.deletionTimestamp.Some? then o.deletionTimestamp.value
    else if graceful then now + Seconds(period)
    else now
  }

  function Marked(o: Object, finalizers: seq<string>, period: int, timestamp: int, first: bool): Object {
    o.(
      finalizers := finalizers,
      deletionGrace := Some(period),
      deletionTimestamp := Some(timestamp),
      generation := if first && o.generation > 0 then o.generation + 1 else o.generation)
  }

  function Finish(o: Object, finalizers: seq<string>, period: int, timestamp: int, first: bool): Verdict {
    if finalizers == [] && period == 0 then Remove
    else
      var o' := Marked(o, finalizers, period, timestamp, first);
      if SameContent(o', o) then Keep else Rewrite(o')
  }

  function DeleteVerdict(h: Hooks, kind: Kind, o: Object, options: DeleteOptions, now: int): Verdict {
    if !h.validOptions(options) then Refuse(Invalid)
    else if !PreconditionsHold(o, options) then Refuse(Conflict)
    else match GraceFor(h, kind, o, Normalised(options.grace), now)
      case Failed(e) => Refuse(e)
      case Pending => Keep
      case Granted(period, timestamp, first) =>
        Finish(o, NewFinalizers(o.finalizers, Wanted(o.finalizers, options)), period, timestamp, first)
  }

  function DeleteStep(h: Hooks, s: Store, key: Key, options: DeleteOptions, now: int, d: Draws): (Store, Reply) {
    if key !in s.m then (s, Err(NotFound))
    else match DeleteVerdict(h, key.kind, s.m[key], options, now)
      case Refuse(e) => (s, Err(e))
      case Keep => (s, Ok(None))
      case Remove => (s.(m := s.m - {key}), Ok(None))
      case Rewrite(o) => (s.(m := s.m[key := o.(rv := d.rv)], usedRV := s.usedRV + {d.rv}), Ok(None))
  }

  /** One locked operation. */
  function Step(h: Hooks, s: Store, c: Call): (Store, Reply) {
    match c
    case Create(kind, namespace, obj, d) => CreateStep(h, s, kind, namespace, obj, d)
    case Update(kind, namespace, obj, d) => UpdateStep(h, s, kind, namespace, obj, true, false, d)
    case UpdateStatus(kind, namespace, obj, d) => UpdateStep(h, s, kind, namespace, obj, true, true, d)
    case Patch(_, _, _, _, _, _, _) => PatchStep(h, s, c)
    case Delete(key, options, now, d) => DeleteStep(h, s, key, options, now, d)
  }
}
