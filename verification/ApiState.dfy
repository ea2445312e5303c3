/** The store as the mutable object the API server locks: each method does what one `Step` says. */
module ApiState {

  import opened Wrappers
  import opened Decimal
  import opened ApiObjects
  import opened Finalizers
  import opened ApiStore

  lemma WantedIgnoresGrace(fs: seq<string>, options: DeleteOptions, opts: DeleteOptions)
    requires opts == options.(grace := opts.grace)
    ensures Wanted(fs, opts) == Wanted(fs, options)
  {
  }

  class State {
    var m: map<Key, Object>
    var usedUID: set<string>
    var usedRV: set<string>
    const hooks: Hooks

    constructor (hooks: Hooks)
      ensures View() == EMPTY && this.hooks == hooks
    {
      this.hooks := hooks;
      m, usedUID, usedRV := map[], {}, {};
    }

    function View(): Store
      reads this
    {
      Store(m, usedUID, usedRV)
    }

    method Get(key: Key) returns (r: Result<Object, Error>)
      ensures r == if key in m then Ok(m[key]) else Err(NotFound)
    {
      if key in m {
        return Ok(m[key]);
      }
      return Err(NotFound);
    }

    method GenerateNewUIDAndUpdate(drawn: string) returns (uid: string)
      requires drawn !in usedUID
      modifies this`usedUID
      ensures uid == drawn && usedUID == old(usedUID) + {drawn}
    {
      usedUID := usedUID + {drawn};
      uid := drawn;
    }

    method GenerateNewRVAndUpdate(drawn: string) returns (rv: string)
      requires drawn !in usedRV
      modifies this`usedRV
      ensures rv == drawn && usedRV == old(usedRV) + {drawn}
    {
      usedRV := usedRV + {drawn};
      rv := drawn;
    }

    method Create(kind: Kind, namespace: string, obj: Object, draws: Draws) returns (r: Reply)
      requires FreshDraws(View(), draws) && FreshName(View(), kind, namespace, obj, draws)
      modifies this
      ensures (View(), r) == CreateStep(hooks, old(View()), kind, namespace, obj, draws)
    {
      var o := obj.(uid := "", deletionTimestamp := None, deletionGrace := None);
      match InNamespace(namespace, o) {
        case Err(e) => return Err(e);
        case Ok(placed) => o := placed;
      }
      var uid := GenerateNewUIDAndUpdate(draws.uid);
      o := o.(uid := uid);
      var name := o.name;
      if name == "" {
        if o.generateName == "" {
          return Err(Rejected("name or generateName"));
        }
        name := o.generateName + draws.suffix;
        o := o.(name := name);
      }
      match hooks.admitCreate(kind, o) {
        case Err(e) => return Err(e);
        case Ok(admitted) => o := admitted;
      }
      var key := Key(kind, name, namespace);
      if key in m {
        return Err(AlreadyExists);
      }
      var rv := GenerateNewRVAndUpdate(draws.rv);
      o := o.(rv := rv);
      m := m[key := o];
      return Ok(Some(o));
    }

    /** The checks of an update up to admission: the existing object, and the submitted one carrying its version. */
    method CheckUpdate(kind: Kind, namespace: string, obj: Object, uidPrecondition: bool)
      returns (r: Result<(Object, Object), Error>)
      ensures r == UpdateTarget(View(), kind, namespace, obj, uidPrecondition)
    {
      var o := obj;
      match InNamespace(namespace, o) {
        case Err(e) => return Err(e);
        case Ok(placed) => o := placed;
      }
      if o.name == "" {
        return Err(BadRequest);
      }
      var key := Key(kind, o.name, namespace);
      if key !in m {
        return Err(NotFound);
      }
      var existing := m[key];
      if uidPrecondition && o.uid != "" && o.uid != existing.uid {
        return Err(Conflict);
      }
      if o.rv == "" {
        o := o.(rv := existing.rv);
      } else if !ParsesAsUint64(o.rv) {
        return Err(Internal);
      }
      if o.rv != existing.rv {
        return Err(Conflict);
      }
      return Ok((existing, o));
    }

    method UpdateLocked(kind: Kind, namespace: string, obj: Object, uidPrecondition: bool, status: bool, draws: Draws)
      returns (r: Reply)
      requires FreshDraws(View(), draws)
      modifies this
      ensures (View(), r) == UpdateStep(hooks, old(View()), kind, namespace, obj, uidPrecondition, status, draws)
    {
      var target := CheckUpdate(kind, namespace, obj, uidPrecondition);
      if target.Err? {
        return Err(target.error);
      }
      var (existing, o) := target.value;
      var key := Key(kind, o.name, namespace);
      var admitted := if status then hooks.admitStatus(kind, o, existing) else hooks.admitUpdate(kind, o, existing);
      match admitted {
        case Err(e) => return Err(e);
        case Ok(a) => o := a;
      }
      if DeleteDuringUpdate(o, existing) {
        m := m - {key};
        return Ok(Some(o));
      }
      if SameContent(o, existing) {
        return Ok(Some(existing));
      }
      var rv := GenerateNewRVAndUpdate(draws.rv);
      o := o.(rv := rv);
      m := m[key := o];
      return Ok(Some(o));
    }

    method Update(kind: Kind, namespace: string, obj: Object, draws: Draws) returns (r: Reply)
      requires FreshDraws(View(), draws)
      modifies this
      ensures (View(), r) == UpdateStep(hooks, old(View()), kind, namespace, obj, true, false, draws)
    {
      r := UpdateLocked(kind, namespace, obj, true, false, draws);
    }

    method UpdateStatus(kind: Kind, namespace: string, obj: Object, draws: Draws) returns (r: Reply)
      requires FreshDraws(View(), draws)
      modifies this
      ensures (View(), r) == UpdateStep(hooks, old(View()), kind, namespace, obj, true, true, draws)
    {
      r := UpdateLocked(kind, namespace, obj, true, true, draws);
    }

    method Patch(kind: Kind, namespace: string, name: string, patchType: PatchType, data: string,
                 subresources: seq<string>, draws: Draws) returns (r: Reply)
      requires FreshDraws(View(), draws)
      modifies this
      ensures (View(), r) == PatchStep(hooks, old(View()),
                                       Call.Patch(kind, namespace, name, patchType, data, subresources, draws))
    {
      if patchType.OtherPatch? {
        return Err(UnsupportedMediaType);
      }
      var status := |subresources| == 1 && subresources[0] == "status";
      if |subresources| > 0 && !status {
        return Err(NotFound);
      }
      if Key(kind, name, namespace) !in m {
        return Err(NotFound);
      }
      var existing := m[Key(kind, name, namespace)];
      if status && !HasStatus(kind) {
        return Err(NotFound);
      }
      match hooks.applyPatch(existing, patchType, data) {
        case Err(e) => return Err(e);
        case Ok(patched) =>
          if patched.name != name {
            return Err(BadRequest);
          }
          r := UpdateLocked(kind, namespace, patched, false, status, draws);
      }
    }

    method ValidateDeletePreconditions(o: Object, options: DeleteOptions) returns (ok: bool)
      ensures ok <==> PreconditionsHold(o, options)
    {
      if options.uid.Some? {
        if options.uid.value != o.uid {
          return false;
        }
      }
      if options.rv.Some? {
        if options.rv.value != o.rv {
          return false;
        }
      }
      return true;
    }

    /** Mutates its copies of the metadata and the options; the caller gets both back. */
    method CheckGracefulDelete(kind: Kind, obj: Object, opts: DeleteOptions, now: int)
      returns (graceful: bool, pendingGraceful: bool, err: Option<Error>, o: Object, options: DeleteOptions)
      ensures GraceFor(hooks, kind, obj, Normalised(opts.grace), now)
           == if err.Some? then Failed(err.value)
              else if pendingGraceful then Pending
              else Granted(if graceful then options.grace.GetOr(0) else 0,
                           DeletionTimestamp(o, graceful, options.grace.GetOr(0), now),
                           obj.deletionTimestamp.None?)
      ensures o == obj.(deletionTimestamp := o.deletionTimestamp, deletionGrace := o.deletionGrace)
      ensures options == opts.(grace := options.grace)
      ensures obj.deletionTimestamp.None? <==> o.deletionTimestamp.None?
    {
      o, options, graceful, pendingGraceful, err := obj, opts, false, false, None;
      if options.grace.Some? && options.grace.value < 0 {
        options := options.(grace := Some(1));
      }
      if o.deletionGrace.Some? && o.deletionGrace.value < 0 {
        o := o.(deletionGrace := Some(1));
      }
      if o.deletionTimestamp.Some? {
        var current := o.deletionGrace;
        if current.None? || current.value == 0 {
          return;
        }
        if options.grace.Some? {
          var period := options.grace.value;
          if period >= current.value {
            pendingGraceful := true;
            return;
          }
          var moved := o.deletionTimestamp.value + Wrap64(-1_000_000_000 * current.value) + Seconds(period);
          if moved < now {
            moved := now;
            if period != 0 {
              period := 1;
            }
          }
          o := o.(deletionTimestamp := Some(moved), deletionGrace := Some(period));
          graceful := true;
          return;
        }
        options := options.(grace := current);
        pendingGraceful := true;
        return;
      }
      match kind {
        case Pod =>
          options := options.(grace := Some(hooks.podGrace(o, options.grace)));
          graceful := true;
        case ServiceAccount => err := Some(Unsupported);
        case ClusterRole => err := Some(Unsupported);
        case _ =>
      }
    }

    /** From the rewritten finalizers on: remove the object, leave it, or mark it deleting. */
    method FinishDelete(obj: Object, checked: Object, finalizers: seq<string>, graceful: bool, gracePeriod: int,
                        now: int)
      returns (v: Verdict)
      requires checked == obj.(deletionTimestamp := checked.deletionTimestamp, deletionGrace := checked.deletionGrace)
      requires obj.deletionTimestamp.None? <==> checked.deletionTimestamp.None?
      ensures v == Finish(obj, finalizers, gracePeriod, DeletionTimestamp(checked, graceful, gracePeriod, now),
                          obj.deletionTimestamp.None?)
    {
      var o := checked.(finalizers := finalizers);
      if |o.finalizers| == 0 && gracePeriod == 0 {
        return Remove;
      }
      if o.deletionGrace.None? || o.deletionGrace.value != gracePeriod {
        o := o.(deletionGrace := Some(gracePeriod));
      }
      if o.deletionTimestamp.None? {
        o := o.(deletionTimestamp := Some(DeletionTimestamp(o, graceful, gracePeriod, now)));
        if o.generation > 0 {
          o := o.(generation := o.generation + 1);
        }
      }
      if SameContent(o, obj) {
        return Keep;
      }
      return Rewrite(o);
    }

    /** What the delete does to the object it found, before anything is stored. */
    method DecideDelete(kind: Kind, obj: Object, options: DeleteOptions, now: int) returns (v: Verdict)
      ensures v == DeleteVerdict(hooks, kind, obj, options, now)
    {
      hide GraceFor, Normalised, PreconditionsHold, NewFinalizers, Rebuilt, Finish, Wanted, SameContent;
      if !hooks.validOptions(options) {
        return Refuse(Invalid);
      }
      var holds := ValidateDeletePreconditions(obj, options);
      if !holds {
        return Refuse(Conflict);
      }
      var graceful, pendingGraceful, err, o, opts := CheckGracefulDelete(kind, obj, options, now);
      if err.Some? {
        return Refuse(err.value);
      }
      if pendingGraceful {
        return Keep;
      }
      var changed, newFinalizers := DeletionFinalizers(o.finalizers, opts);
      WantedIgnoresGrace(obj.finalizers, options, opts);
      var gracePeriod := 0;
      if graceful && opts.grace.Some? {
        gracePeriod := opts.grace.value;
      }
      v := FinishDelete(obj, o, newFinalizers, graceful, gracePeriod, now);
    }

    method Delete(key: Key, options: DeleteOptions, now: int, draws: Draws) returns (r: Reply)
      requires FreshDraws(View(), draws)
      modifies this
      ensures (View(), r) == DeleteStep(hooks, old(View()), key, options, now, draws)
    {
      if key !in m {
        return Err(NotFound);
      }
      var verdict := DecideDelete(key.kind, m[key], options, now);
      match verdict {
        case Refuse(e) => return Err(e);
        case Keep =>
        case Remove => m := m - {key};
        case Rewrite(o) =>
          var rv := GenerateNewRVAndUpdate(draws.rv);
          m := m[key := o.(rv := rv)];
      }
      return Ok(None);
    }
  }
}
